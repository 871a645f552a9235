/** What the classifiers of both managers learn about a window from the OS,
    as data: the answers of the Win32/DWM queries for each handle, the
    virtual-desktop service's answer, and the exclusion rules of the
    configuration that both revisions share. */
module Attributes {
  import opened Wrappers
  import opened Registry
  import opened Text
  import opened Configs
  import opened Macros
  import opened Win32

  /** The answers of the OS queries about one window. */
  datatype Attrs = Attrs(
    styleLong: int,               // GetWindowLongPtrW(GWL_STYLE)
    exStyleLong: int,             // GetWindowLongPtrW(GWL_EXSTYLE)
    cloak: Result<bv32>,          // DwmGetWindowAttribute(DWMWA_CLOAKED)
    visible: bool,                // IsWindowVisible
    title: string,                // GetWindowTextW
    titleLength: int,             // GetWindowTextLengthW
    className: string,            // GetClassNameW
    processName: Option<string>,  // get_exe_filename: None when it cannot be resolved
    owner: Handle,                // GetWindow(GW_OWNER)
    parent: Handle,               // GetParent
    iconic: bool)                 // IsIconic

  /** The OS as seen while one message is handled: the attributes of every
      handle, the answer of `is_window_on_current_desktop` (which may fail),
      and a rank that strictly decreases from a window to its parent (the
      parent chain of real windows is finite and acyclic). */
  datatype Env = Env(
    attrs: Handle -> Attrs,
    onCurrentDesktop: Handle -> Result<bool>,
    rank: Handle -> nat)

  /** The rank measures the parent chain: following `parent` strictly lowers it. */
  ghost predicate ParentsRanked(env: Env)
  {
    forall h :: env.attrs(h).parent != 0 ==> env.rank(env.attrs(h).parent) < env.rank(h)
  }

  function Style(a: Attrs): bv32 { StyleFromLong(a.styleLong) }
  function ExStyle(a: Attrs): bv32 { StyleFromLong(a.exStyleLong) }

  /** The style tests of the classifiers. A flag can only be read from a
      style value that fits in a `u32`; any other value reads as 0. */
  predicate IsChild(a: Attrs)
    ensures IsChild(a) ==> 0 <= a.styleLong < 0x1_0000_0000 && a.styleLong as bv32 & WS_CHILD != 0
  {
    HasFlag(Style(a), WS_CHILD)
  }

  predicate IsDisabled(a: Attrs)
    ensures IsDisabled(a) ==> 0 <= a.styleLong < 0x1_0000_0000 && a.styleLong as bv32 & WS_DISABLED != 0
  {
    HasFlag(Style(a), WS_DISABLED)
  }

  predicate IsTool(a: Attrs)
    ensures IsTool(a) ==> 0 <= a.exStyleLong < 0x1_0000_0000 && a.exStyleLong as bv32 & WS_EX_TOOLWINDOW != 0
  {
    HasFlag(ExStyle(a), WS_EX_TOOLWINDOW)
  }

  predicate NoActivate(a: Attrs)
    ensures NoActivate(a) ==> 0 <= a.exStyleLong < 0x1_0000_0000 && a.exStyleLong as bv32 & WS_EX_NOACTIVATE != 0
  {
    HasFlag(ExStyle(a), WS_EX_NOACTIVATE)
  }

  predicate IsAppWindow(a: Attrs)
    ensures IsAppWindow(a) ==> 0 <= a.exStyleLong < 0x1_0000_0000 && a.exStyleLong as bv32 & WS_EX_APPWINDOW != 0
  {
    HasFlag(ExStyle(a), WS_EX_APPWINDOW)
  }

  /** `is_cloaked`: only a successful DWM query can report a cloak. */
  predicate WindowCloaked(a: Attrs)
    ensures WindowCloaked(a) ==> a.cloak.Ok?
  {
    IsCloaked(a.cloak)
  }

  /** The class name the `Windows.UI.Core.CoreWindow` rule applies to. */
  const CORE_WINDOW_CLASS: string := "Windows.UI.Core.CoreWindow"

  /** The three configuration rules that reject a window, in the order both
      classifiers test them: a `CoreWindow`-class window whose title contains
      a listed title, a class name containing a listed class, and a resolved
      process name containing a listed process. A process name that cannot
      be resolved never matches, and an absent list is an empty one. */
  function ExcludedByConfig(a: Attrs, c: Config): (r: bool)
    ensures r <==>
      || (Occurs(a.className, CORE_WINDOW_CLASS) && OccursAny(a.title, Elems(c.coreWindowTitles)))
      || OccursAny(a.className, Elems(c.classNames))
      || (a.processName.Some? && OccursAny(a.processName.value, Elems(c.processNames)))
  {
    || (c.coreWindowTitles.Some? && Contains(a.className, CORE_WINDOW_CLASS)
        && ContainsAny(a.title, c.coreWindowTitles.value))
    || (c.classNames.Some? && ContainsAny(a.className, c.classNames.value))
    || (c.processNames.Some? && a.processName.Some? && ContainsAny(a.processName.value, c.processNames.value))
  }

  /** Layering a configuration over `c` excludes what `c` excludes plus what
      the other excludes by class or process; the other's `CoreWindow`
      titles are dropped by `Add` and exclude nothing. */
  lemma ExcludedByLayered(a: Attrs, c: Config, d: Config)
    ensures ExcludedByConfig(a, Add(c, d)) <==>
      ExcludedByConfig(a, c) || ExcludedByConfig(a, d.(coreWindowTitles := None))
  {
    ContainsAnyAppend(a.className, Elems(c.classNames), Elems(d.classNames));
    if a.processName.Some? {
      ContainsAnyAppend(a.processName.value, Elems(c.processNames), Elems(d.processNames));
    }
  }

  /** An unresolved process name makes the process list irrelevant. */
  lemma UnresolvedProcessNeverExcludes(a: Attrs, c: Config)
    requires a.processName.None?
    ensures ExcludedByConfig(a, c) == ExcludedByConfig(a, c.(processNames := None))
  {
  }

  /** An empty entry in the class list matches every class name, so such a
      configuration excludes every window. */
  lemma EmptyClassEntryExcludesAll(a: Attrs, c: Config)
    requires c.classNames.Some? && "" in c.classNames.value
    ensures ExcludedByConfig(a, c)
  {
    EmptyNeedleMatches(a.className, c.classNames.value);
  }
}
