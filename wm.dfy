/** src/wm.rs: the older window manager. Its classifier first examines the
    window's parent (recursively) and registers an accepted parent as a side
    effect; its records carry a `minimized` flag that the minimise messages
    update; `unmanage` has no desktop check and `arrange` only skips
    minimised windows. */
module Wm {
  import opened Wrappers
  import opened Registry
  import opened Arrange
  import opened Configs
  import opened Attributes
  import opened Placements
  import opened Messages
  import WindowManagers

  /** The record `Window { hwnd, minimized }` of the older revision. */
  datatype WmWindow = WmWindow(hwnd: Handle, minimized: bool)

  function HwndOf(w: WmWindow): Handle
  {
    w.hwnd
  }

  /** `Window::new(hwnd)`: a window that is not minimised. */
  function NewWindow(h: Handle): WmWindow
  {
    WmWindow(h, false)
  }

  /** The part of `is_manageable` after the parent has been examined: reject
      a window without a title, or one that is disabled, not activatable or
      cloaked, then the configuration's exclusions; then accept a visible
      top-level window or a window whose parent was accepted (`pOk`), with a
      second test on tool windows. */
  function Decide(a: Attrs, c: Config, pOk: bool): (r: bool)
    ensures r ==> a.titleLength != 0 && !ExcludedByConfig(a, c)
    ensures a.parent != 0 && !pOk ==> !r
    ensures !a.visible && !pOk ==> !r
  {
    if a.titleLength == 0 || IsDisabled(a) || NoActivate(a) || WindowCloaked(a) then false
    else if ExcludedByConfig(a, c) then false
    else if (a.parent == 0 && a.visible) || pOk then
      if !IsTool(a) || a.parent == 0 || pOk then true
      else if IsAppWindow(a) && a.parent != 0 then true
      else false
    else false
  }

  /** The decision as the conjunction of its two final tests, and the
      consequence that the second test never fails once the first holds:
      whether the window is a tool window or an app window does not matter. */
  lemma DecideFormula(a: Attrs, c: Config, pOk: bool)
    ensures Decide(a, c, pOk) <==>
      && a.titleLength != 0 && !IsDisabled(a) && !NoActivate(a) && !WindowCloaked(a)
      && !ExcludedByConfig(a, c)
      && ((a.parent == 0 && a.visible) || pOk)
      && (!IsTool(a) || a.parent == 0 || pOk || (IsAppWindow(a) && a.parent != 0))
    ensures Decide(a, c, pOk) <==>
      && a.titleLength != 0 && !IsDisabled(a) && !NoActivate(a) && !WindowCloaked(a)
      && !ExcludedByConfig(a, c)
      && ((a.parent == 0 && a.visible) || pOk)
  {
  }

  /** For a window without a parent, the newer classifier accepts exactly
      what the older one accepts and is not a child, not a tool window and
      not owned. */
  lemma RevisionsOnTopLevel(a: Attrs, c: Config)
    requires a.parent == 0
    ensures WindowManagers.Admit(a, c) <==>
      Decide(a, c, false) && !IsChild(a) && !IsTool(a) && a.owner == 0
  {
  }

  /** The parent chain of `h`, nearest first. */
  function Ancestors(env: Env, h: Handle): (hs: seq<Handle>)
    requires ParentsRanked(env)
    ensures forall x :: x in hs ==> x != 0 && env.rank(x) < env.rank(h)
    decreases env.rank(h)
  {
    var p := env.attrs(h).parent;
    if p == 0 then [] else [p] + Ancestors(env, p)
  }

  /** The verdict of `is_manageable` and the registry it leaves behind. */
  datatype Verdict = Verdict(manageable: bool, windows: seq<WmWindow>)

  /** `is_manageable(h)` on registry `ws`: the null handle is rejected and a
      tracked handle accepted at once; otherwise the parent is examined
      first (only when it is not null), an accepted parent that is not yet
      tracked is appended, and `Decide` gives the verdict. */
  function Classify(ws: seq<WmWindow>, c: Config, h: Handle, env: Env): (v: Verdict)
    requires ParentsRanked(env)
    ensures ws <= v.windows
    ensures v.manageable ==> h != 0
    decreases env.rank(h)
  {
    if h == 0 then Verdict(false, ws)
    else if Any(ws, HwndOf, h) then Verdict(true, ws)
    else
      var p := env.attrs(h).parent;
      var pv := if p != 0 then Classify(ws, c, p, env) else Verdict(false, ws);
      var pOk := p != 0 && pv.manageable;
      var ws2 := if pOk && !Any(pv.windows, HwndOf, p) then pv.windows + [NewWindow(p)] else pv.windows;
      Verdict(Decide(env.attrs(h), c, pOk), ws2)
  }

  /** The verdict: the null handle is rejected, a tracked handle accepted
      without looking at it, and any other window accepted exactly when the
      basic tests and the exclusions pass and it is either a visible
      top-level window or its parent is itself accepted. */
  lemma ClassifyVerdict(ws: seq<WmWindow>, c: Config, h: Handle, env: Env)
    requires ParentsRanked(env)
    ensures Classify(ws, c, 0, env) == Verdict(false, ws)
    ensures h != 0 && Any(ws, HwndOf, h) ==> Classify(ws, c, h, env) == Verdict(true, ws)
    ensures var a := env.attrs(h);
      h != 0 && !Any(ws, HwndOf, h) ==>
        (Classify(ws, c, h, env).manageable <==>
          && a.titleLength != 0 && !IsDisabled(a) && !NoActivate(a) && !WindowCloaked(a)
          && !ExcludedByConfig(a, c)
          && ((a.parent == 0 && a.visible) || (a.parent != 0 && Classify(ws, c, a.parent, env).manageable)))
  {
    var a := env.attrs(h);
    DecideFormula(a, c, a.parent != 0 && Classify(ws, c, a.parent, env).manageable);
  }

  /** Classifying only appends, keeps handles unique, and appends nothing
      but not-minimised records of `h`'s ancestors; an accepted parent is
      tracked afterwards. */
  lemma {:induction false} ClassifyGrows(ws: seq<WmWindow>, c: Config, h: Handle, env: Env)
    requires ParentsRanked(env) && Unique(ws, HwndOf)
    ensures var v := Classify(ws, c, h, env);
      && Unique(v.windows, HwndOf)
      && ws <= v.windows
      && (forall i :: |ws| <= i < |v.windows| ==>
            v.windows[i].hwnd in Ancestors(env, h) && !v.windows[i].minimized)
    ensures var p := env.attrs(h).parent;
      h != 0 && !Any(ws, HwndOf, h) && p != 0 && Classify(ws, c, p, env).manageable ==>
        Any(Classify(ws, c, h, env).windows, HwndOf, p)
    decreases env.rank(h)
  {
    if h != 0 && !Any(ws, HwndOf, h) {
      var p := env.attrs(h).parent;
      if p != 0 {
        ClassifyGrows(ws, c, p, env);
        var pv := Classify(ws, c, p, env);
        InsertProperties(pv.windows, HwndOf, NewWindow(p));
        var v := Classify(ws, c, h, env);
        assert Ancestors(env, h) == [p] + Ancestors(env, p);
        forall i | |ws| <= i < |v.windows|
          ensures v.windows[i].hwnd in Ancestors(env, h) && !v.windows[i].minimized
        {
          if i < |pv.windows| {
            assert v.windows[i] == pv.windows[i];
          } else {
            assert v.windows[i] == NewWindow(p);
          }
        }
      }
    }
  }

  /** A handle is never its own ancestor, so classifying `h` never appends `h`. */
  lemma ClassifyNeverAddsSelf(ws: seq<WmWindow>, c: Config, h: Handle, env: Env)
    requires ParentsRanked(env) && Unique(ws, HwndOf) && !Any(ws, HwndOf, h)
    ensures !Any(Classify(ws, c, h, env).windows, HwndOf, h)
  {
    ClassifyGrows(ws, c, h, env);
  }

  /** Asking again gives the same verdict and changes nothing more. */
  lemma {:induction false} ClassifyIdempotent(ws: seq<WmWindow>, c: Config, h: Handle, env: Env)
    requires ParentsRanked(env) && Unique(ws, HwndOf)
    ensures var v := Classify(ws, c, h, env); Classify(v.windows, c, h, env) == v
    decreases env.rank(h)
  {
    var v := Classify(ws, c, h, env);
    if h != 0 && !Any(ws, HwndOf, h) {
      ClassifyNeverAddsSelf(ws, c, h, env);
      var p := env.attrs(h).parent;
      if p != 0 {
        var pv := Classify(ws, c, p, env);
        ClassifyGrows(ws, c, p, env);
        if pv.manageable {
          InsertProperties(pv.windows, HwndOf, NewWindow(p));
          assert Any(v.windows, HwndOf, p);
        } else {
          ClassifyIdempotent(ws, c, p, env);
        }
      }
    }
  }

  /** The windows `arrange` positions: only minimised ones (as `IsIconic`
      reports them, not the stored flag) are skipped. */
  function NotIconic(env: Env): WmWindow -> bool
  {
    (w: WmWindow) => !env.attrs(w.hwnd).iconic
  }

  function OnScreen(ws: seq<WmWindow>, env: Env): (r: seq<WmWindow>)
    ensures forall i :: 0 <= i < |r| ==> r[i] in ws && !env.attrs(r[i].hwnd).iconic
  {
    Filter(ws, NotIconic(env))
  }

  /** Record `i` with its `minimized` flag set to `b`. */
  function SetMinimized(ws: seq<WmWindow>, i: nat, b: bool): (r: seq<WmWindow>)
    requires i < |ws|
    ensures |r| == |ws| && r[i] == WmWindow(ws[i].hwnd, b)
    ensures forall j :: 0 <= j < |ws| && j != i ==> r[j] == ws[j]
  {
    ws[i := ws[i].(minimized := b)]
  }

  /** Updating the flag keeps the handles, hence uniqueness, and does not
      change which windows `arrange` positions. */
  lemma {:induction false} SetMinimizedKeepsHandles(ws: seq<WmWindow>, i: nat, b: bool, env: Env)
    requires i < |ws|
    ensures Keys(SetMinimized(ws, i, b), HwndOf) == Keys(ws, HwndOf)
    ensures Unique(ws, HwndOf) ==> Unique(SetMinimized(ws, i, b), HwndOf)
    ensures Keys(OnScreen(SetMinimized(ws, i, b), env), HwndOf) == Keys(OnScreen(ws, env), HwndOf)
  {
    var r := SetMinimized(ws, i, b);
    assert forall j :: 0 <= j < |ws| ==> HwndOf(r[j]) == HwndOf(ws[j]);
    OnScreenKeys(ws, r, env);
  }

  lemma {:induction false} OnScreenKeys(xs: seq<WmWindow>, ys: seq<WmWindow>, env: Env)
    requires |xs| == |ys| && forall j :: 0 <= j < |xs| ==> xs[j].hwnd == ys[j].hwnd
    ensures Keys(OnScreen(xs, env), HwndOf) == Keys(OnScreen(ys, env), HwndOf)
  {
    if |xs| > 0 {
      OnScreenKeys(xs[1..], ys[1..], env);
      var kx := Keys(OnScreen(xs[1..], env), HwndOf);
      var ky := Keys(OnScreen(ys[1..], env), HwndOf);
      if !env.attrs(xs[0].hwnd).iconic {
        assert OnScreen(xs, env) == [xs[0]] + OnScreen(xs[1..], env);
        assert OnScreen(ys, env) == [ys[0]] + OnScreen(ys[1..], env);
        assert Keys(OnScreen(xs, env), HwndOf) == [xs[0].hwnd] + kx;
        assert Keys(OnScreen(ys, env), HwndOf) == [ys[0].hwnd] + ky;
      }
    }
  }

  /** One call of `scan` for `h`: classify it (possibly registering
      ancestors) and manage it when accepted. */
  function ScanStep(ws: seq<WmWindow>, h: Handle, c: Config, env: Env): (r: seq<WmWindow>)
    requires ParentsRanked(env)
    ensures ws <= r
  {
    var v := Classify(ws, c, h, env);
    if v.manageable then Insert(v.windows, HwndOf, NewWindow(h)) else v.windows
  }

  function ScanAll(ws: seq<WmWindow>, hs: seq<Handle>, c: Config, env: Env): (r: seq<WmWindow>)
    requires ParentsRanked(env)
    ensures ws <= r
    decreases |hs|
  {
    if |hs| == 0 then ws else ScanAll(ScanStep(ws, hs[0], c, env), hs[1..], c, env)
  }

  /** Enumeration keeps the registry unique, only appends, and afterwards
      tracks every window accepted at its turn, that is, accepted by
      `Classify` on the registry left by the handles before it. */
  lemma {:induction false} ScanAllGrows(ws: seq<WmWindow>, hs: seq<Handle>, c: Config, env: Env)
    requires ParentsRanked(env) && Unique(ws, HwndOf)
    ensures Unique(ScanAll(ws, hs, c, env), HwndOf)
    ensures ws <= ScanAll(ws, hs, c, env)
    ensures forall k :: 0 <= k < |hs| && Classify(ScanAll(ws, hs[..k], c, env), c, hs[k], env).manageable ==>
      Any(ScanAll(ws, hs, c, env), HwndOf, hs[k])
    decreases |hs|
  {
    if |hs| > 0 {
      var v := Classify(ws, c, hs[0], env);
      ClassifyGrows(ws, c, hs[0], env);
      InsertProperties(v.windows, HwndOf, NewWindow(hs[0]));
      var ws1 := ScanStep(ws, hs[0], c, env);
      ScanAllGrows(ws1, hs[1..], c, env);
      var r := ScanAll(ws1, hs[1..], c, env);
      assert r == ScanAll(ws, hs, c, env);
      forall k | 0 <= k < |hs| && Classify(ScanAll(ws, hs[..k], c, env), c, hs[k], env).manageable
        ensures Any(r, HwndOf, hs[k])
      {
        if k == 0 {
          assert hs[..0] == [];
          var i :| 0 <= i < |ws1| && HwndOf(ws1[i]) == hs[0];
          assert r[i] == ws1[i];
        } else {
          ScanAllCons(ws, hs[..k], c, env);
          assert hs[..k][0] == hs[0] && hs[..k][1..] == hs[1..][..k - 1];
          assert hs[k] == hs[1..][k - 1];
        }
      }
    }
  }

  /** Enumerating a non-empty list is one step followed by the rest. */
  lemma ScanAllCons(ws: seq<WmWindow>, hs: seq<Handle>, c: Config, env: Env)
    requires ParentsRanked(env) && |hs| > 0
    ensures ScanAll(ws, hs, c, env) == ScanAll(ScanStep(ws, hs[0], c, env), hs[1..], c, env)
  {
  }

  class WM {
    /** `managed_windows`, in the order the windows were first managed. */
    var managedWindows: seq<WmWindow>
    const workingArea: Tile
    var shellHookId: bv32
    const config: Config

    ghost predicate Valid()
      reads this
    {
      Unique(managedWindows, HwndOf)
    }

    /** `WM::new` once the working area has been obtained. */
    constructor (config: Config, workingArea: Tile)
      ensures managedWindows == [] && shellHookId == 0
      ensures this.config == config && this.workingArea == workingArea
      ensures Valid()
    {
      managedWindows := [];
      shellHookId := 0;
      this.config := config;
      this.workingArea := workingArea;
    }

    predicate Tracked(h: Handle)
      reads this
    {
      Any(managedWindows, HwndOf, h)
    }

    /** `get_window`: the managed record with handle `h`, if any. */
    function GetWindow(h: Handle): (r: Option<WmWindow>)
      reads this
      ensures r.None? <==> !Tracked(h)
      ensures r.Some? ==> r.value.hwnd == h && r.value in managedWindows
    {
      Find(managedWindows, HwndOf, h)
    }

    /** `manage`: return the tracked record, or append a new one. */
    method Manage(h: Handle) returns (w: Option<WmWindow>)
      requires Valid()
      modifies this`managedWindows
      ensures Valid()
      ensures w.Some? && w.value.hwnd == h
      ensures w == if old(Tracked(h)) then old(GetWindow(h)) else Some(NewWindow(h))
      ensures managedWindows == Insert(old(managedWindows), HwndOf, NewWindow(h))
      ensures old(Tracked(h)) ==> managedWindows == old(managedWindows)
      ensures !old(Tracked(h)) ==> managedWindows == old(managedWindows) + [NewWindow(h)]
    {
      InsertProperties(managedWindows, HwndOf, NewWindow(h));
      var found := GetWindow(h);
      if found.Some? {
        w := found;
      } else {
        var nw := NewWindow(h);
        managedWindows := managedWindows + [nw];
        w := Some(nw);
      }
    }

    /** `is_manageable`, with its side effect on the registry. */
    method IsManageable(h: Handle, env: Env) returns (r: bool)
      requires Valid() && ParentsRanked(env)
      modifies this`managedWindows
      ensures Valid()
      ensures r == Classify(old(managedWindows), config, h, env).manageable
      ensures managedWindows == Classify(old(managedWindows), config, h, env).windows
      decreases env.rank(h)
    {
      if h == 0 {
        return false;
      }
      if Any(managedWindows, HwndOf, h) {
        return true;
      }
      var parent := env.attrs(h).parent;
      var pOk := false;
      if parent != 0 {
        pOk := IsManageable(parent, env);
      }
      if pOk && !Any(managedWindows, HwndOf, parent) {
        var _ := Manage(parent);
      }
      r := Decide(env.attrs(h), config, pOk);
    }

    method SetShellHookId(id: bv32)
      modifies this`shellHookId
      ensures shellHookId == id
    {
      shellHookId := id;
    }

    /** `unmanage`: remove a tracked handle, with no desktop check. */
    method Unmanage(h: Handle)
      requires Valid()
      modifies this`managedWindows
      ensures Valid()
      ensures old(Tracked(h)) ==> managedWindows == Retain(old(managedWindows), HwndOf, h)
      ensures !old(Tracked(h)) ==> managedWindows == old(managedWindows)
    {
      if Any(managedWindows, HwndOf, h) {
        RemovalProperties(managedWindows, HwndOf, h);
        managedWindows := Retain(managedWindows, HwndOf, h);
      }
    }

    function Arrangement(env: Env): (r: seq<Placement>)
      reads this
      ensures forall i :: 0 <= i < |r| ==> Tracked(r[i].hwnd) && !env.attrs(r[i].hwnd).iconic
    {
      Layout(Keys(OnScreen(managedWindows, env), HwndOf), workingArea)
    }

    /** `arrange`: tile the windows that are not minimised, in registry order. */
    method Arrange(env: Env) returns (calls: seq<Placement>)
      ensures calls == Arrangement(env)
    {
      var windowsOnScreen := Filter(managedWindows, NotIconic(env));
      calls := PositionWindows(Keys(windowsOnScreen, HwndOf), workingArea);
    }

    /** `message_loop` for a message whose `lparam` is the handle `h`. */
    method MessageLoop(msg: bv32, wparam: bv64, h: Handle, env: Env)
      returns (reply: Reply, arranged: Option<seq<Placement>>)
      requires Valid() && ParentsRanked(env)
      modifies this`managedWindows
      ensures Valid()
      ensures var e := Decode(WM_IDS, shellHookId, msg, wparam);
        && (reply == if e == Unhandled then DefaultProc else Handled)
        && ((e == Cloaked || e == ShellDestroyed) ==>
              if old(Tracked(h)) then
                managedWindows == Retain(old(managedWindows), HwndOf, h) && arranged == Some(Arrangement(env))
              else managedWindows == old(managedWindows) && arranged == None)
        && ((e == Uncloaked || e == ShellCreated) ==>
              if old(Tracked(h)) then managedWindows == old(managedWindows) && arranged == None
              else
                var v := Classify(old(managedWindows), config, h, env);
                if v.manageable then
                  managedWindows == v.windows + [NewWindow(h)] && arranged == Some(Arrangement(env))
                else managedWindows == v.windows && arranged == None)
        && (e == MinimizeEnd ==>
              match old(Position(managedWindows, HwndOf, h))
              case Some(i) =>
                managedWindows == SetMinimized(old(managedWindows), i, false) && arranged == Some(Arrangement(env))
              case None => managedWindows == old(managedWindows) && arranged == None)
        && (e == MinimizeStart ==>
              match old(Position(managedWindows, HwndOf, h))
              case Some(i) =>
                && managedWindows == SetMinimized(old(managedWindows), i, env.attrs(h).iconic)
                && arranged == (if env.attrs(h).iconic then Some(Arrangement(env)) else None)
              case None => managedWindows == old(managedWindows) && arranged == None)
        && (e == Unhandled ==> managedWindows == old(managedWindows) && arranged == None)
    {
      var managedWindow := GetWindow(h);
      var e := Decode(WM_IDS, shellHookId, msg, wparam);
      arranged := None;
      reply := Handled;
      match e
      case Cloaked =>
        if managedWindow.Some? {
          Unmanage(h);
          var calls := Arrange(env);
          arranged := Some(calls);
        }
      case Uncloaked =>
        if managedWindow.None? {
          ClassifyNeverAddsSelf(managedWindows, config, h, env);
          var ok := IsManageable(h, env);
          if ok {
            var _ := Manage(h);
            var calls := Arrange(env);
            arranged := Some(calls);
          }
        }
      case MinimizeEnd =>
        var index := Position(managedWindows, HwndOf, h);
        if index.Some? {
          SetMinimizedKeepsHandles(managedWindows, index.value, false, env);
          managedWindows := managedWindows[index.value := managedWindows[index.value].(minimized := false)];
          var calls := Arrange(env);
          arranged := Some(calls);
        }
      case MinimizeStart =>
        if managedWindow.Some? {
          var index := Position(managedWindows, HwndOf, h);
          if index.Some? {
            var i := index.value;
            var iconic := env.attrs(managedWindows[i].hwnd).iconic;
            SetMinimizedKeepsHandles(managedWindows, i, iconic, env);
            managedWindows := managedWindows[i := managedWindows[i].(minimized := iconic)];
            if managedWindows[i].minimized {
              var calls := Arrange(env);
              arranged := Some(calls);
            }
          }
        }
      case ShellCreated =>
        if managedWindow.None? {
          ClassifyNeverAddsSelf(managedWindows, config, h, env);
          var ok := IsManageable(h, env);
          if ok {
            var _ := Manage(h);
            var calls := Arrange(env);
            arranged := Some(calls);
          }
        }
      case ShellDestroyed =>
        if managedWindow.Some? {
          Unmanage(h);
          var calls := Arrange(env);
          arranged := Some(calls);
        }
      case Unhandled =>
        reply := DefaultProc;
    }

    /** `scan`, called by `EnumWindows` for each handle of `hs` in turn. */
    method Scan(hs: seq<Handle>, env: Env)
      requires Valid() && ParentsRanked(env)
      modifies this`managedWindows
      ensures Valid()
      ensures managedWindows == ScanAll(old(managedWindows), hs, config, env)
    {
      var i := 0;
      while i < |hs|
        invariant 0 <= i <= |hs|
        invariant Valid()
        invariant ScanAll(managedWindows, hs[i..], config, env) == ScanAll(old(managedWindows), hs, config, env)
      {
        assert hs[i..][1..] == hs[i + 1..];
        var ok := IsManageable(hs[i], env);
        if ok {
          var _ := Manage(hs[i]);
        }
        i := i + 1;
      }
    }
  }
}
