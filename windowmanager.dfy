/** src/windowmanager.rs: the newer window manager. It keeps the managed
    windows in an ordered list, decides which windows to manage, removes a
    window only when the virtual-desktop service confirms it is on the
    current desktop, tiles the shown windows with the spiral layout, and
    maps posted messages to these actions. */
module WindowManagers {
  import opened Wrappers
  import opened Registry
  import opened Text
  import opened Arrange
  import opened Configs
  import opened Attributes
  import opened Placements
  import opened Messages

  /** `Window(HWND)` (src/window.rs): a managed window is its handle. */
  datatype Window = Window(hwnd: Handle)

  function HwndOf(w: Window): Handle
  {
    w.hwnd
  }

  /** The decision `is_manageable` takes for a window it does not track
      yet: reject a window without a title or a disabled one, then the
      configuration's exclusions; otherwise accept a visible, activatable,
      uncloaked top-level window that is neither a tool window nor owned. */
  function Admit(a: Attrs, c: Config): (r: bool)
    ensures r <==>
      && a.titleLength != 0 && !IsDisabled(a)
      && !ExcludedByConfig(a, c)
      && !WindowCloaked(a) && a.visible && !NoActivate(a) && !IsChild(a)
      && !IsTool(a) && a.owner == 0
  {
    if a.titleLength == 0 || IsDisabled(a) then false
    else if ExcludedByConfig(a, c) then false
    else
      var isAppWindow := a.visible && !NoActivate(a) && !IsChild(a);
      var isAltTabWindow := !(IsTool(a) || a.owner != 0);
      !WindowCloaked(a) && isAppWindow && isAltTabWindow
  }

  /** A window admitted under a layered configuration is admitted under
      the base configuration: layering can only add exclusions. */
  lemma AdmitLayered(a: Attrs, c: Config, d: Config)
    ensures Admit(a, Add(c, d)) ==> Admit(a, c)
    ensures Admit(a, Add(c, d)) ==> Admit(a, d.(coreWindowTitles := None))
  {
    ExcludedByLayered(a, c, d);
  }

  /** `arrange` shows a window that is not minimised and that the
      virtual-desktop service reports on the current desktop; a failed query
      counts as "not on this desktop". */
  predicate Shown(env: Env, h: Handle)
    ensures Shown(env, h) ==> env.onCurrentDesktop(h).Ok?
  {
    !env.attrs(h).iconic && env.onCurrentDesktop(h) == Ok(true)
  }

  function ShownWindow(env: Env): Window -> bool
  {
    (w: Window) => Shown(env, w.hwnd)
  }

  /** The two `filter`s at the start of `arrange`. */
  function OnScreen(ws: seq<Window>, env: Env): (r: seq<Window>)
    ensures forall i :: 0 <= i < |r| ==> r[i] in ws && Shown(env, r[i].hwnd)
  {
    Filter(ws, ShownWindow(env))
  }

  /** The windows `arrange` positions are the shown managed windows, each
      once, in registry order. */
  lemma OnScreenProperties(ws: seq<Window>, env: Env)
    requires Unique(ws, HwndOf)
    ensures forall w :: w in OnScreen(ws, env) <==> w in ws && Shown(env, w.hwnd)
    ensures Subsequence(OnScreen(ws, env), ws)
    ensures Unique(OnScreen(ws, env), HwndOf)
  {
    FilterMembers(ws, ShownWindow(env));
    FilterSubsequence(ws, ShownWindow(env));
    FilterUnique(ws, HwndOf, ShownWindow(env));
  }

  /** One call of `scan` for handle `h`: manage it if it is manageable. */
  function ScanStep(ws: seq<Window>, h: Handle, c: Config, env: Env): (r: seq<Window>)
    ensures r == ws || r == ws + [Window(h)]
  {
    if Any(ws, HwndOf, h) || Admit(env.attrs(h), c) then Insert(ws, HwndOf, Window(h)) else ws
  }

  /** `scan` called by `EnumWindows` for each handle of `hs` in turn. */
  function ScanAll(ws: seq<Window>, hs: seq<Handle>, c: Config, env: Env): (r: seq<Window>)
    ensures ws <= r
    decreases |hs|
  {
    if |hs| == 0 then ws else ScanAll(ScanStep(ws, hs[0], c, env), hs[1..], c, env)
  }

  /** One step appends at most the scanned window, and only an admitted one. */
  lemma ScanStepProperties(ws: seq<Window>, h: Handle, c: Config, env: Env)
    requires Unique(ws, HwndOf)
    ensures Unique(ScanStep(ws, h, c, env), HwndOf)
    ensures ScanStep(ws, h, c, env) == ws
      || (ScanStep(ws, h, c, env) == ws + [Window(h)] && Admit(env.attrs(h), c))
    ensures Admit(env.attrs(h), c) ==> Any(ScanStep(ws, h, c, env), HwndOf, h)
  {
    InsertProperties(ws, HwndOf, Window(h));
  }

  /** Enumeration keeps the registry unique and only appends, and every
      window it appends is an admitted handle it saw. */
  lemma {:induction false} ScanAllGrows(ws: seq<Window>, hs: seq<Handle>, c: Config, env: Env)
    requires Unique(ws, HwndOf)
    ensures Unique(ScanAll(ws, hs, c, env), HwndOf)
    ensures ws <= ScanAll(ws, hs, c, env)
    ensures forall i :: |ws| <= i < |ScanAll(ws, hs, c, env)| ==>
      ScanAll(ws, hs, c, env)[i].hwnd in hs && Admit(env.attrs(ScanAll(ws, hs, c, env)[i].hwnd), c)
    decreases |hs|
  {
    if |hs| > 0 {
      var ws1 := ScanStep(ws, hs[0], c, env);
      ScanStepProperties(ws, hs[0], c, env);
      ScanAllGrows(ws1, hs[1..], c, env);
      var r := ScanAll(ws1, hs[1..], c, env);
      assert r == ScanAll(ws, hs, c, env);
      forall i | |ws| <= i < |r| ensures r[i].hwnd in hs && Admit(env.attrs(r[i].hwnd), c) {
        if i < |ws1| {
          assert r[i] == ws1[i] == Window(hs[0]);
        } else {
          assert r[i].hwnd in hs[1..];
        }
      }
    }
  }

  /** After enumeration every admitted handle it saw is tracked. */
  lemma {:induction false} ScanAllTracks(ws: seq<Window>, hs: seq<Handle>, c: Config, env: Env)
    requires Unique(ws, HwndOf)
    ensures forall h :: h in hs && Admit(env.attrs(h), c) ==> Any(ScanAll(ws, hs, c, env), HwndOf, h)
    decreases |hs|
  {
    if |hs| > 0 {
      var ws1 := ScanStep(ws, hs[0], c, env);
      ScanStepProperties(ws, hs[0], c, env);
      ScanAllTracks(ws1, hs[1..], c, env);
      ScanAllGrows(ws1, hs[1..], c, env);
      var r := ScanAll(ws1, hs[1..], c, env);
      assert r == ScanAll(ws, hs, c, env);
      forall h | h in hs && Admit(env.attrs(h), c) ensures Any(r, HwndOf, h) {
        if h == hs[0] {
          var i :| 0 <= i < |ws1| && HwndOf(ws1[i]) == h;
          assert r[i] == ws1[i];
        } else {
          assert h in hs[1..];
        }
      }
    }
  }

  /** Enumeration over handles whose admitted ones are all tracked already
      changes nothing. */
  lemma {:induction false} ScanAllStable(ws: seq<Window>, hs: seq<Handle>, c: Config, env: Env)
    requires forall h :: h in hs && Admit(env.attrs(h), c) ==> Any(ws, HwndOf, h)
    ensures ScanAll(ws, hs, c, env) == ws
    decreases |hs|
  {
    if |hs| > 0 {
      assert ScanStep(ws, hs[0], c, env) == ws;
      ScanAllStable(ws, hs[1..], c, env);
    }
  }

  /** Enumerating the same windows a second time changes nothing. */
  lemma ScanAllIdempotent(ws: seq<Window>, hs: seq<Handle>, c: Config, env: Env)
    requires Unique(ws, HwndOf)
    ensures ScanAll(ScanAll(ws, hs, c, env), hs, c, env) == ScanAll(ws, hs, c, env)
  {
    ScanAllTracks(ws, hs, c, env);
    ScanAllStable(ScanAll(ws, hs, c, env), hs, c, env);
  }

  class WindowManager {
    /** `managed_windows`, in the order the windows were first managed. */
    var managedWindows: seq<Window>
    /** `working_area` as `(x, y, width, height)`. */
    const workingArea: Tile
    var shellHookId: bv32
    const config: Config

    /** No handle is managed twice. */
    ghost predicate Valid()
      reads this
    {
      Unique(managedWindows, HwndOf)
    }

    /** `WindowManager::new` once the working area has been obtained (the
        failure paths of the OS queries are not modelled). */
    constructor (config: Config, workingArea: Tile)
      ensures managedWindows == [] && shellHookId == 0
      ensures this.config == config && this.workingArea == workingArea
      ensures Valid()
    {
      managedWindows := [];
      shellHookId := 0;
      this.config := config;
      this.workingArea := workingArea;
    }

    predicate Tracked(h: Handle)
      reads this
    {
      Any(managedWindows, HwndOf, h)
    }

    /** `get_window`: the managed window with handle `h`, if any. */
    function GetWindow(h: Handle): (r: Option<Window>)
      reads this
      ensures r.None? <==> !Tracked(h)
      ensures r.Some? ==> r.value == Window(h) && r.value in managedWindows
    {
      Find(managedWindows, HwndOf, h)
    }

    /** `manage`: return the tracked window, or append a new one. */
    method Manage(h: Handle) returns (w: Option<Window>)
      requires Valid()
      modifies this`managedWindows
      ensures Valid()
      ensures w == Some(Window(h))
      ensures managedWindows == Insert(old(managedWindows), HwndOf, Window(h))
      ensures old(Tracked(h)) ==> managedWindows == old(managedWindows)
      ensures !old(Tracked(h)) ==> managedWindows == old(managedWindows) + [Window(h)]
    {
      InsertProperties(managedWindows, HwndOf, Window(h));
      var found := GetWindow(h);
      if found.Some? {
        w := found;
      } else {
        var nw := Window(h);
        managedWindows := managedWindows + [nw];
        w := Some(nw);
      }
    }

    /** `is_manageable`: a tracked window is manageable without looking at
        it; otherwise `Admit` decides. */
    predicate IsManageable(h: Handle, env: Env): (r: bool)
      reads this
      ensures Tracked(h) ==> r
      ensures !Tracked(h) ==> (r <==> Admit(env.attrs(h), config))
    {
      Tracked(h) || Admit(env.attrs(h), config)
    }

    method SetShellHookId(id: bv32)
      modifies this`shellHookId
      ensures shellHookId == id
    {
      shellHookId := id;
    }

    /** `unmanage`: an untracked handle is ignored; a tracked one is removed
        only when the desktop query answers `Ok(true)`. */
    method Unmanage(h: Handle, env: Env)
      requires Valid()
      modifies this`managedWindows
      ensures Valid()
      ensures managedWindows ==
        if old(Tracked(h)) && env.onCurrentDesktop(h) == Ok(true)
        then Retain(old(managedWindows), HwndOf, h)
        else old(managedWindows)
    {
      if !Any(managedWindows, HwndOf, h) {
        return;
      }
      var isOnDesktop := match env.onCurrentDesktop(h) case Ok(b) => b case Err => false;
      if isOnDesktop {
        RemovalProperties(managedWindows, HwndOf, h);
        managedWindows := Retain(managedWindows, HwndOf, h);
      }
    }

    /** The `set_window_pos` calls `arrange` makes in the current state. */
    function Arrangement(env: Env): (r: seq<Placement>)
      reads this
      ensures forall i :: 0 <= i < |r| ==> Tracked(r[i].hwnd) && Shown(env, r[i].hwnd)
    {
      Layout(Keys(OnScreen(managedWindows, env), HwndOf), workingArea)
    }

    /** `arrange`: tile the shown windows, in registry order. */
    method Arrange(env: Env) returns (calls: seq<Placement>)
      ensures calls == Arrangement(env)
    {
      var windowsOnScreen := Filter(managedWindows, ShownWindow(env));
      calls := PositionWindows(Keys(windowsOnScreen, HwndOf), workingArea);
    }

    /** `message_loop` for a message whose `lparam` is the handle `h`. The
        returned arrangement is `None` when `arrange` is not called. */
    method MessageLoop(msg: bv32, wparam: bv64, h: Handle, env: Env)
      returns (reply: Reply, arranged: Option<seq<Placement>>)
      requires Valid()
      modifies this`managedWindows
      ensures Valid()
      ensures var e := Decode(WINDOWMANAGER_IDS, shellHookId, msg, wparam);
        && (reply == if e == Unhandled then DefaultProc else Handled)
        && ((e == Cloaked || e == ShellDestroyed) ==>
              if old(Tracked(h)) then
                && managedWindows == (if env.onCurrentDesktop(h) == Ok(true)
                                      then Retain(old(managedWindows), HwndOf, h)
                                      else old(managedWindows))
                && arranged == Some(Arrangement(env))
              else managedWindows == old(managedWindows) && arranged == None)
        && ((e == Uncloaked || e == ShellCreated) ==>
              if !old(Tracked(h)) && Admit(env.attrs(h), config) then
                managedWindows == old(managedWindows) + [Window(h)] && arranged == Some(Arrangement(env))
              else managedWindows == old(managedWindows) && arranged == None)
        && ((e == MinimizeEnd || e == MinimizeStart) ==>
              && managedWindows == old(managedWindows)
              && arranged == (if old(Tracked(h)) then Some(Arrangement(env)) else None))
        && (e == Unhandled ==> managedWindows == old(managedWindows) && arranged == None)
    {
      var managedWindow := GetWindow(h);
      var e := Decode(WINDOWMANAGER_IDS, shellHookId, msg, wparam);
      arranged := None;
      reply := Handled;
      match e
      case Cloaked =>
        if managedWindow.Some? {
          Unmanage(h, env);
          var calls := Arrange(env);
          arranged := Some(calls);
        }
      case Uncloaked =>
        if managedWindow.None? && IsManageable(h, env) {
          var _ := Manage(h);
          var calls := Arrange(env);
          arranged := Some(calls);
        }
      case MinimizeEnd =>
        var index := Position(managedWindows, HwndOf, h);
        if index.Some? {
          var calls := Arrange(env);
          arranged := Some(calls);
        }
      case MinimizeStart =>
        if managedWindow.Some? {
          var calls := Arrange(env);
          arranged := Some(calls);
        }
      case ShellCreated =>
        if managedWindow.None? && IsManageable(h, env) {
          var _ := Manage(h);
          var calls := Arrange(env);
          arranged := Some(calls);
        }
      case ShellDestroyed =>
        if managedWindow.Some? {
          Unmanage(h, env);
          var calls := Arrange(env);
          arranged := Some(calls);
        }
      case Unhandled =>
        reply := DefaultProc;
    }

    /** `scan`, called by `EnumWindows` for each handle of `hs` in turn. */
    method Scan(hs: seq<Handle>, env: Env)
      requires Valid()
      modifies this`managedWindows
      ensures Valid()
      ensures managedWindows == ScanAll(old(managedWindows), hs, config, env)
    {
      var i := 0;
      while i < |hs|
        invariant 0 <= i <= |hs|
        invariant Valid()
        invariant ScanAll(managedWindows, hs[i..], config, env) == ScanAll(old(managedWindows), hs, config, env)
      {
        assert hs[i..][1..] == hs[i + 1..];
        if IsManageable(hs[i], env) {
          var _ := Manage(hs[i]);
        }
        i := i + 1;
      }
    }
  }
}
