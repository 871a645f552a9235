/** How both `message_loop`s read a message: four custom messages posted by
    the WinEvent hook callbacks, and the shell-hook message whose `wparam`
    carries an `HSHELL_*` code. The two revisions number the custom messages
    differently. */
module Messages {
  import opened Macros

  /** The ids of the custom messages for a window becoming uncloaked or
      cloaked and for the end and start of a minimisation. */
  datatype MessageIds = MessageIds(uncloaked: bv32, cloaked: bv32, minimizeEnd: bv32, minimizeStart: bv32)

  const WM_USER: bv32 := 0x0400

  /** `MSG_*` of src/windowmanager.rs: `WM_USER + 0, 1, 3, 4`. */
  const WINDOWMANAGER_IDS: MessageIds := MessageIds(WM_USER, WM_USER + 1, WM_USER + 3, WM_USER + 4)

  /** `WM_*` of src/wm.rs: `WM_USER + 1, 2, 4, 8`. */
  const WM_IDS: MessageIds := MessageIds(WM_USER + 1, WM_USER + 2, WM_USER + 4, WM_USER + 8)

  const HSHELL_WINDOWCREATED: bv32 := 1
  const HSHELL_WINDOWDESTROYED: bv32 := 2

  /** Which arm of the `match (msg, wmsg)` a message takes. */
  datatype Event = Cloaked | Uncloaked | MinimizeEnd | MinimizeStart | ShellCreated | ShellDestroyed | Unhandled

  /** What `message_loop` returns: `LRESULT(0)` for every matched arm (even
      when its guard fails), or the default window procedure's answer. */
  datatype Reply = Handled | DefaultProc

  predicate Distinct(ids: MessageIds)
  {
    && ids.uncloaked != ids.cloaked && ids.uncloaked != ids.minimizeEnd && ids.uncloaked != ids.minimizeStart
    && ids.cloaked != ids.minimizeEnd && ids.cloaked != ids.minimizeStart && ids.minimizeEnd != ids.minimizeStart
  }

  predicate Custom(ids: MessageIds, msg: bv32)
  {
    msg == ids.uncloaked || msg == ids.cloaked || msg == ids.minimizeEnd || msg == ids.minimizeStart
  }

  /** `wparam.0 as u32 & 0x7FFF`: the low 32 bits of `wparam`, then `LOWORD!`'s 15-bit mask. */
  function ShellCode(wparam: bv64): (code: bv32)
    ensures code < 0x8000
    ensures code as bv64 == wparam & 0x7FFF
  {
    LoWord((wparam & 0xFFFF_FFFF) as bv32)
  }

  /** The arms of the `match` in source order: cloaked, uncloaked,
      minimise end, minimise start, then the two shell codes, each guarded by
      `msg == shell_hook_id`. */
  function Decode(ids: MessageIds, shellHookId: bv32, msg: bv32, wparam: bv64): (e: Event)
    ensures e == ShellCreated || e == ShellDestroyed ==> msg == shellHookId
    ensures !Custom(ids, msg) && msg != shellHookId ==> e == Unhandled
  {
    if msg == ids.cloaked then Cloaked
    else if msg == ids.uncloaked then Uncloaked
    else if msg == ids.minimizeEnd then MinimizeEnd
    else if msg == ids.minimizeStart then MinimizeStart
    else if msg == shellHookId && ShellCode(wparam) == HSHELL_WINDOWCREATED then ShellCreated
    else if msg == shellHookId && ShellCode(wparam) == HSHELL_WINDOWDESTROYED then ShellDestroyed
    else Unhandled
  }

  /** Both revisions number their custom messages without collision, so
      each custom message is read as its own event whatever `wparam` and the
      shell hook id are; a shell event needs the shell hook id and a
      message that is not one of the custom ones, so a shell hook id that
      collides with a custom id is never read as a shell message. */
  lemma DecodeProperties(ids: MessageIds, shellHookId: bv32, msg: bv32, wparam: bv64)
    requires Distinct(ids)
    ensures Decode(ids, shellHookId, msg, wparam) == Cloaked <==> msg == ids.cloaked
    ensures Decode(ids, shellHookId, msg, wparam) == Uncloaked <==> msg == ids.uncloaked
    ensures Decode(ids, shellHookId, msg, wparam) == MinimizeEnd <==> msg == ids.minimizeEnd
    ensures Decode(ids, shellHookId, msg, wparam) == MinimizeStart <==> msg == ids.minimizeStart
    ensures Decode(ids, shellHookId, msg, wparam) == ShellCreated <==>
      msg == shellHookId && !Custom(ids, msg) && ShellCode(wparam) == HSHELL_WINDOWCREATED
    ensures Decode(ids, shellHookId, msg, wparam) == ShellDestroyed <==>
      msg == shellHookId && !Custom(ids, msg) && ShellCode(wparam) == HSHELL_WINDOWDESTROYED
    ensures Decode(ids, shellHookId, msg, wparam) == Unhandled <==>
      !Custom(ids, msg) && (msg != shellHookId || (ShellCode(wparam) != HSHELL_WINDOWCREATED && ShellCode(wparam) != HSHELL_WINDOWDESTROYED))
  {
  }

  /** Neither revision reuses an id. */
  lemma IdsDistinct()
    ensures Distinct(WINDOWMANAGER_IDS) && Distinct(WM_IDS)
    ensures !Custom(WINDOWMANAGER_IDS, 0x0402) && Custom(WM_IDS, 0x0402)
  {
  }

  /** Only the low 15 bits of `wparam` matter: the `HSHELL_HIGHBIT` flag
      (0x8000) and everything above are masked off, so `0x8001` reads as a
      created window. */
  lemma ShellCodeMasks(wparam: bv64)
    ensures ShellCode(wparam) == ShellCode(wparam & 0x7FFF)
    ensures ShellCode(0x8001) == HSHELL_WINDOWCREATED
    ensures ShellCode(0x1_0000_0002) == HSHELL_WINDOWDESTROYED
  {
  }
}
