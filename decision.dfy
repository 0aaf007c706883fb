/** The home-presence test and the choice of sub-mode in auto mode
    (SATpwn.py `_home_ssid_visible`, `_auto_mode_logic`, and the mode label
    of `on_ui_update`). */
module Decision {
  import opened Common
  import opened Records

  /** Home is visible when the whitelist is non-empty and some remembered
      access point has its address, or its network name, on the whitelist
      (exact, case-sensitive match). */
  predicate HomeVisible(m: Memory, whitelist: set<string>)
  {
    whitelist != {} && exists k :: k in m && (m[k].ssid in whitelist || k in whitelist)
  }

  /** A memory with no access points never reveals home. */
  lemma EmptyMemoryNotHome(whitelist: set<string>)
    ensures !HomeVisible(map[], whitelist)
  {
  }

  /** The memory size below which auto mode prefers `loose` to `strict`. */
  const SMALL_MEMORY: nat := 10

  /** The sub-mode auto mode runs: `recon` when home is visible or the
      device is stationary; else `drive-by` when moving; else `loose` for a
      memory of fewer than ten access points and `strict` otherwise. */
  function AutoSubmode(home: bool, stationary: bool, moving: bool, apCount: nat): (r: string)
    ensures r in MODES && r != AUTO
  {
    if home || stationary then RECON
    else if moving then DRIVE_BY
    else if apCount < SMALL_MEMORY then LOOSE
    else STRICT
  }

  /** The priority order in full: each sub-mode is chosen exactly under its
      condition, the first matching rule winning. */
  lemma AutoSubmodePriority(home: bool, stationary: bool, moving: bool, apCount: nat)
    ensures AutoSubmode(home, stationary, moving, apCount) == RECON <==> home || stationary
    ensures AutoSubmode(home, stationary, moving, apCount) == DRIVE_BY <==> !home && !stationary && moving
    ensures AutoSubmode(home, stationary, moving, apCount) == LOOSE
            <==> !home && !stationary && !moving && apCount < SMALL_MEMORY
    ensures AutoSubmode(home, stationary, moving, apCount) == STRICT
            <==> !home && !stationary && !moving && apCount >= SMALL_MEMORY
  {
  }

  /** The mode label shown on the display: `auto(<sub>)` while auto mode has
      chosen a (non-empty) sub-mode, the mode itself otherwise. */
  function ModeDisplay(mode: string, submode: Option<string>): string
  {
    if mode == AUTO && submode.Some? && submode.value != "" then "auto(" + submode.value + ")" else mode
  }

  /** The label identifies the mode, and in auto mode the sub-mode: two
      states with valid modes and sub-modes show the same label only when
      they have the same mode and, in auto mode, the same sub-mode. */
  lemma ModeDisplayDistinguishes(mode1: string, sub1: Option<string>, mode2: string, sub2: Option<string>)
    requires mode1 in MODES && mode2 in MODES
    requires sub1.Some? ==> sub1.value in MODES && sub1.value != AUTO
    requires sub2.Some? ==> sub2.value in MODES && sub2.value != AUTO
    ensures ModeDisplay(mode1, sub1) == ModeDisplay(mode2, sub2) ==>
            mode1 == mode2 && (mode1 == AUTO ==> sub1 == sub2)
  {
    var d1, d2 := ModeDisplay(mode1, sub1), ModeDisplay(mode2, sub2);
    if d1 == d2 && mode1 == AUTO && sub1.Some? && mode2 == AUTO && sub2.Some? {
      assert d1[5..|d1| - 1] == sub1.value;
      assert d2[5..|d2| - 1] == sub2.value;
    }
  }
}
