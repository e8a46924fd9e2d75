/** The firmware's polling loop: the locals it updates on every tick, the
    indicator light it drives, and the choice of screen it draws. */
module MainLoop {
  import opened Navigation
  import opened Debounce

  /** What the render step of a tick draws. `MenuFrame` carries the three
      "selected" markers of the menu; `Kept` is the menu left undrawn while the
      button is held; `Unreachable` is the defensive abort for a selection
      outside the menu. */
  datatype Frame =
    | HomeFrame
    | MenuFrame(settings: bool, status: bool, exit: bool)
    | Kept
    | SettingsFrame
    | StatusFrame
    | ExitFrame
    | Unreachable

  /** The screen whose marker a menu frame shows. */
  function Marked(f: Frame): UiState
    requires f.MenuFrame?
  {
    if f.settings then Settings else if f.status then Status else Exit
  }

  /** The render dispatch on the current screen. The menu is not redrawn
      while the button is held, and shows exactly one marker, on the entry a
      long press would open; any other selection aborts. */
  function Dispatch(ui: UiState, btnDown: bool, index: Byte): (f: Frame)
    ensures f.Unreachable? <==> ui.Menu? && !btnDown && index >= MENU_ENTRIES
    ensures f.Kept? <==> ui.Menu? && btnDown
    ensures f.MenuFrame? <==> ui.Menu? && !btnDown && index < MENU_ENTRIES
    ensures f.MenuFrame? ==> Marked(f) == LongPress(Menu, index)
    ensures f.MenuFrame? ==> f.settings == (index == 0) && f.status == (index == 1) && f.exit == (index == 2)
    ensures f.HomeFrame? <==> ui.Home?
    ensures IsSubScreen(ui) ==> (f.SettingsFrame? <==> ui.Settings?) && (f.StatusFrame? <==> ui.Status?)
                                && (f.ExitFrame? <==> ui.Exit?)
  {
    match ui
    case Home => HomeFrame
    case Menu =>
      if btnDown then Kept
      else
        (match index
         case 0 => MenuFrame(true, false, false)
         case 1 => MenuFrame(false, true, false)
         case 2 => MenuFrame(false, false, true)
         case _ => Unreachable)
    case Settings => SettingsFrame
    case Status => StatusFrame
    case Exit => ExitFrame
  }

  /** The loop's state: the debounced button, the navigation pair and the
      level of the indicator light. */
  class Controller {
    var btnDown: bool
    var btnRawLast: bool
    var btnChangedAt: nat
    var btnPressedAt: nat
    var longFired: bool
    var uiState: UiState
    var optionIndex: Byte
    var ledHigh: bool

    /** The selection is always one of the menu's entries. */
    predicate Valid()
      reads this
    {
      optionIndex < MENU_ENTRIES
    }

    /** The loop's locals as a value. */
    function State(): Ctl
      reads this
    {
      Ctl(btnDown, btnRawLast, btnChangedAt, btnPressedAt, longFired, uiState, optionIndex)
    }

    /** The locals as the loop starts: Home, first entry, button up, both
        timers at `start`. */
    constructor (start: nat)
      ensures Valid() && State() == Initial(start) && !ledHigh
    {
      uiState := Home;
      optionIndex := 0;
      btnDown := false;
      btnRawLast := false;
      btnChangedAt := start;
      btnPressedAt := start;
      longFired := false;
      ledHigh := false;
    }

    /** One pass of the loop's input half: debounce the raw sample `raw`
        taken at `now`, run the handlers its edges call for, and drive the
        light high exactly while the debounced button is down. */
    method Tick(raw: bool, now: nat)
      requires Valid()
      modifies this
      ensures Valid()
      ensures State() == Step(old(State()), raw, now).next
      ensures ledHigh == btnDown
    {
      if raw != btnRawLast {
        btnRawLast := raw;
        btnChangedAt := now;
      }
      var stable := Elapsed(now, btnChangedAt) >= DEBOUNCE_MS;
      if stable {
        // rising edge
        if raw && !btnDown {
          btnDown := true;
          btnPressedAt := now;
          longFired := false;
        }
        // long press while held
        if btnDown && !longFired && Elapsed(now, btnPressedAt) >= LONG_PRESS_MS {
          longFired := true;
          uiState := LongPress(uiState, optionIndex);
        }
        // falling edge
        if !raw && btnDown {
          btnDown := false;
          if !longFired {
            var nav := ShortPress(uiState, optionIndex);
            uiState, optionIndex := nav.state, nav.index;
          }
        }
      }
      ledHigh := btnDown;
    }

    /** The loop over a finite prefix of its samples. */
    method RunTicks(samples: seq<Sample>)
      requires Valid()
      modifies this
      ensures Valid()
      ensures State() == Run(old(State()), samples)
      ensures samples != [] ==> ledHigh == btnDown
    {
      var i := 0;
      while i < |samples|
        invariant 0 <= i <= |samples|
        invariant Valid()
        invariant State() == Run(old(State()), samples[..i])
        invariant i > 0 ==> ledHigh == btnDown
      {
        assert samples[..i + 1][..i] == samples[..i];
        Tick(samples[i].raw, samples[i].now);
        i := i + 1;
      }
      assert samples[..i] == samples;
    }

    /** The frame the render step draws; never the defensive abort. */
    method Render() returns (f: Frame)
      requires Valid()
      ensures f == Dispatch(uiState, btnDown, optionIndex)
      ensures !f.Unreachable?
      ensures uiState.Menu? && !btnDown ==> f.MenuFrame? && Marked(f) == MenuEntry(optionIndex)
    {
      f := Dispatch(uiState, btnDown, optionIndex);
    }
  }
}
