/** The single-button navigation controller of the firmware: which screen is
    shown and which menu entry is selected. A long press is "enter/confirm",
    a short press is "cycle/back". Both handlers are total over every
    (screen, selection) pair. */
module Navigation {

  /** The firmware keeps the menu selection in an unsigned 8-bit integer. */
  type Byte = x: int | 0 <= x < 256

  /** Number of entries of the menu (Settings, Status, Exit). */
  const MENU_ENTRIES: nat := 3

  datatype UiState = Home | Menu | Settings | Status | Exit

  /** The three screens reachable from the menu. */
  predicate IsSubScreen(s: UiState) {
    s.Settings? || s.Status? || s.Exit?
  }

  /** The menu's entries, in display order: the screen entry `i` opens. */
  function MenuEntry(i: nat): UiState
    requires i < MENU_ENTRIES
  {
    [Settings, Status, Exit][i]
  }

  /** A screen together with the menu selection. */
  datatype Nav = Nav(state: UiState, index: Byte)

  /** Long press: Home opens the menu, the menu opens the selected entry (an
      out-of-range selection leaves the menu open), and every sub-screen goes
      back to Home. The selection is passed by value, so a long press never
      changes it. */
  function LongPress(state: UiState, index: Byte): (r: UiState)
    ensures state.Home? ==> r.Menu?
    ensures state.Menu? && index < MENU_ENTRIES ==> r == MenuEntry(index)
    ensures state.Menu? && index >= MENU_ENTRIES ==> r.Menu?
    ensures IsSubScreen(state) ==> r.Home?
    ensures IsSubScreen(r) <==> state.Menu? && index < MENU_ENTRIES
    ensures r == state <==> state.Menu? && index >= MENU_ENTRIES
  {
    match state
    case Home => Menu
    case Menu =>
      (match index
       case 0 => Settings
       case 1 => Status
       case 2 => Exit
       case _ => Menu)
    case _ => Home
  }

  /** Short press: the menu advances its selection modulo three, every
      sub-screen goes back to the menu with the first entry selected, and
      Home ignores it. The increment is 8-bit arithmetic, which overflows at
      255, so the selection must be below 255. */
  function ShortPress(state: UiState, index: Byte): (r: Nav)
    requires index < 255
    ensures state.Menu? ==> r.state.Menu? && r.index == (index + 1) % MENU_ENTRIES
    ensures IsSubScreen(state) ==> r == Nav(Menu, 0)
    ensures state.Home? ==> r == Nav(Home, index)
    ensures r.state.Menu? <==> state.Menu? || IsSubScreen(state)
    ensures r.index < MENU_ENTRIES || r == Nav(Home, index)
  {
    match state
    case Menu => Nav(Menu, (index + 1) % 3)
    case Settings | Status | Exit => Nav(Menu, 0)
    case Home => Nav(state, index)
  }

  /** The screen and selection after `n` consecutive short presses. */
  function ShortPresses(nav: Nav, n: nat): (r: Nav)
    requires nav.index < 255
    ensures r.index < 255
    ensures nav.index < MENU_ENTRIES ==> r.index < MENU_ENTRIES
    decreases n
  {
    if n == 0 then nav
    else
      var prev := ShortPresses(nav, n - 1);
      ShortPress(prev.state, prev.index)
  }

  /** Repeated short presses in the menu cycle through the entries
      i, i+1, i+2, i, ... with no skips. */
  lemma {:induction false} MenuCycles(i: Byte, n: nat)
    requires i < MENU_ENTRIES
    ensures ShortPresses(Nav(Menu, i), n) == Nav(Menu, (i + n) % MENU_ENTRIES)
    decreases n
  {
    if n > 0 {
      MenuCycles(i, n - 1);
      var k := (i + n - 1) % 3;
      assert (k + 1) % 3 == (i + n) % 3;
    }
  }

  /** Every entry of the menu is reachable from the first one: `i` short
      presses followed by a long press open entry `i`. */
  lemma SelectEntry(i: Byte)
    requires i < MENU_ENTRIES
    ensures var nav := ShortPresses(Nav(Menu, 0), i);
            nav.state.Menu? && LongPress(nav.state, nav.index) == MenuEntry(i)
  {
    MenuCycles(0, i);
  }

  /** Opening an entry and then pressing briefly returns to the menu with
      the first entry selected; opening it and then pressing long returns
      Home. */
  lemma EnterThenLeave(i: Byte)
    requires i < MENU_ENTRIES
    ensures ShortPress(LongPress(Menu, i), i) == Nav(Menu, 0)
    ensures LongPress(LongPress(Menu, i), i).Home?
  {
  }
}
