# pippo: the single-button navigation controller

A model of the input half of the firmware's polling loop, in `src/main.rs`. The
device has one push-button, an indicator light and a display. Each tick of the loop
samples the button line. It debounces the sample with a 30 ms window and detects
edges on the debounced level. A press held for 1600 ms fires the long-press handler
once; a release runs the short-press handler unless that press's long press has
already fired. The two handlers move between five screens (Home, Menu, Settings,
Status, Exit) and the menu selection. The light follows the debounced button, and
the render step picks the frame for the current screen.

- `navigation.dfy`, module `Navigation`: the screens, the 8-bit selection and the two
  handlers, as pure functions. It also proves that short presses cycle the selection
  and that every menu entry can be reached.
- `debounce.dfy`, module `Debounce`: the loop's button locals as a value `Ctl`, and
  one tick as the function `Step`. `Run` applies it to a sequence of
  (raw level, time) samples, and `LongCount`, `ShortCount` and `PressCount` count
  the handlers fired and the presses begun. The lemmas state anti-bounce, one long
  press per press, and two concrete scenarios.
- `main_loop.dfy`, module `MainLoop`: class `Controller`, whose fields are the loop's
  locals. Its `Tick` does the updates step by step, as the loop body does, and is
  proved equal to `Step`. `RunTicks` runs the loop over a finite prefix of samples.
  `Render` returns the frame, which is never the `unreachable!()` abort.

Time is natural-number milliseconds. `Instant::duration_since` saturates at zero when
the earlier instant is in fact later. `Elapsed` does the same, so `Tick` needs no
precondition on the clock. Only the lemmas about runs of ticks assume that sample
times never go backwards, as a monotone clock guarantees.

The long-press threshold runs from the tick that debounces the press to the tick
that debounces the release, 30 ms after the raw release. In that last tick the
long-press check runs before the falling-edge check, so a press that reaches the
threshold exactly on its release tick fires its long press and no short press, both
in the same tick (`ReleaseWithinWindowScenario`: raw 0 to 1600 ms, debounced 30 to
1630 ms, 1600 ms by either measure).

The comment at `src/main.rs:244` says the light goes low when pressed. The code
(`handle_led`, lines 349-358) drives it high while the debounced button is down. The
model follows the code.

## Model

| member | source | states |
|---|---|---|
| `Navigation.LongPress` | src/main.rs:322-334 | Home opens Menu; Menu opens Settings, Status or Exit for selection 0, 1 or 2 and stays in Menu for any other selection; every sub-screen returns Home; the result is a sub-screen exactly when leaving Menu with a valid selection, and differs from the input screen except for Menu with an out-of-range selection |
| `Navigation.ShortPress` | src/main.rs:336-347 | Menu stays in Menu with selection `(i + 1) mod 3`; every sub-screen goes to (Menu, 0); Home is unchanged; afterwards the selection is below 3 unless the screen is Home; requires a selection below 255 because the `u8` increment overflows there |
| `Navigation.ShortPresses` | src/main.rs:338-339 | any number of short presses from a selection below 3 keeps it below 3 |
| `Navigation.MenuCycles` | src/main.rs:338-339 | `n` short presses from (Menu, i) give (Menu, (i + n) mod 3): the selection runs 0, 1, 2, 0, 1, 2, … with no skips |
| `Navigation.SelectEntry` | src/main.rs:325-339 | `i` short presses from (Menu, 0) followed by a long press open menu entry `i`, so every entry is reachable |
| `Navigation.EnterThenLeave` | src/main.rs:322-347 | after opening an entry, a short press returns to (Menu, 0) and a long press returns Home |
| `Debounce.Initial` | src/main.rs:181-189 | the loop starts at Home with selection 0, the button up and no long press fired |
| `Debounce.Step` | src/main.rs:202-242 | a raw change only restarts the debounce timer, and the timer moves only on a raw change; the debounced level changes only to a raw level held for 30 ms, and a raw level held for 30 ms always becomes the debounced level; a rising edge sets the press time to now and re-arms the long press; the long-press handler runs exactly when it sets `long_fired`, only on a press held for 1600 ms, and always when such a press has not fired yet on a stable tick; a stable release before 1600 ms always runs the short press; `long_fired` is cleared only on a rising edge; a release runs the short-press handler exactly when no long press fired for that press; screen and selection change only through the handlers; a selection below 3 stays below 3 |
| `Debounce.Run` | src/main.rs:195-242 | over any sequence of ticks, a selection below 3 stays below 3 (and one below 255 below 255) |
| `Debounce.LongPressOncePerPress` | src/main.rs:217-232 | over any run, long presses fired plus one if the last press has not fired yet are at most presses begun plus one if the press in progress at the start had not fired yet |
| `Debounce.LongPressNotRepeated` | src/main.rs:224-232 | with no new press, at most one long press fires, and none if the current press's long press had already fired |
| `Debounce.RunRawLast` | src/main.rs:207-210 | after `n` ticks the last raw level recorded is that of the `n`-th sample |
| `Debounce.ChangedAtAfterChange` | src/main.rs:207-210 | with monotone times, the debounce timer after `n` ticks is no earlier than any raw change among them |
| `Debounce.ChangedAtNotBefore` | src/main.rs:207-210 | with monotone times starting after the recorded raw change, the debounce timer never moves before that change |
| `Debounce.UnsettledTick` | src/main.rs:211-215 | a tick less than 30 ms after the recorded raw change changes only the raw bookkeeping and fires no handler |
| `Debounce.BounceUpTo` | src/main.rs:207-215 | on a line that never settles, every prefix of the run leaves the debounced level, the long-press flag, the press time, the screen and the selection unchanged and fires no handler |
| `Debounce.BounceNeverRegisters` | src/main.rs:206-215 | a raw line that never holds a level for 30 ms, counted from a raw change in the run or from the change recorded before it, never changes the debounced level, the screen or the selection and fires no handler |
| `Debounce.LongHoldScenario` | src/main.rs:215-241 | a 2000 ms hold from Home registers at 30 ms with nothing fired, fires one long press at 1630 ms that opens the menu, and its release runs no short press |
| `Debounce.ReleaseWithinWindowScenario` | src/main.rs:206-241 | a raw press from 0 to 1600 ms from Home registers at 30 ms; its release is seen at 1630 ms, where the long press fires (opening the menu) and the release runs no short press, in the same tick |
| `Debounce.ShortPressScenario` | src/main.rs:234-241 | a 200 ms press in Menu with selection 1 runs exactly one short press, selecting entry 2, and no long press |
| `MainLoop.Dispatch` | src/main.rs:248-291 | each screen draws its own frame: Home exactly the home frame, a sub-screen exactly its own, Menu with the button up and a valid selection exactly a menu frame; Menu is not redrawn while the button is held and otherwise marks exactly the entry a long press would open; the abort happens exactly for Menu, button up, selection 3 or more |
| `MainLoop.Controller.constructor` | src/main.rs:181-189 | the fields start as the loop's initial locals, with the selection valid |
| `MainLoop.Controller.Tick` | src/main.rs:202-245 | the new fields are `Step` of the old ones; the selection stays below 3; the light is high exactly while the debounced button is down |
| `MainLoop.Controller.RunTicks` | src/main.rs:195-294 | running the loop over a prefix of samples gives `Run` of the initial fields and keeps the selection valid |
| `MainLoop.Controller.Render` | src/main.rs:253-270 | in every valid state the frame is never the `unreachable!()` abort, and Menu, when drawn with the button up, marks the selected entry |

## Left out

- Drawing: `boot_screen`, `home_screen`, `menu_screen`, the `draw_*_screen` routines and
  `draw_wifi_icon` are calls into the display driver. `Dispatch` only chooses the frame.
- Hardware setup (WiFi join, GPIO, I2C, LEDC and servo drivers) and the 20 ms
  `FreeRtos::delay_ms` sleep: vendor-library I/O. The sleep only spaces the samples,
  which the model takes as given times.
- Reading the button line and the clock: each tick's raw level and instant are parameters.
- `get_weather`, the JSON parsing of the temperature, the NTP wait and the chrono time
  formatting: network services, floating point and external time formatting.
- The HTTP server and its `/buzz` handler with the mutex-guarded buzzer pulse, and
  `index_html` / `buzz_html`: concurrency and static files.
- The loop itself never ends; `RunTicks` and `Run` cover any finite prefix of it.
- `Navigation.ShortPress`: does not model what happens at selection 255, where the `u8`
  increment overflows (a panic with overflow checks, a wrap to 0 without). It requires
  a selection below 255, and the loop keeps the selection below 3.
