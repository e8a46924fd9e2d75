/** The debounce and edge-detection step of the main loop, as a function on a
    snapshot of the loop's locals, and what a sequence of such steps does. */
module Debounce {
  import opened Navigation

  /** A raw level must hold this long (ms) before it is trusted. */
  const DEBOUNCE_MS: nat := 30
  /** A debounced press held this long (ms) is a long press. */
  const LONG_PRESS_MS: nat := 1600

  /** Milliseconds from `earlier` to `now`; like `Instant::duration_since`,
      zero when `earlier` is the later instant. */
  function Elapsed(now: nat, earlier: nat): nat {
    if earlier <= now then now - earlier else 0
  }

  /** The loop's button and navigation locals; times are milliseconds. A
      single tick accepts any time; only the lemmas about runs assume that
      sample times never go backwards. */
  datatype Ctl = Ctl(
    btnDown: bool,     // debounced level
    rawLast: bool,     // last raw sample
    changedAt: nat,    // when the raw level last changed
    pressedAt: nat,    // when the current debounced press began
    longFired: bool,   // the long press of the current press has fired
    ui: UiState,
    index: Byte)

  /** The state the loop starts from, `start` being the instant both timers
      are initialised with. */
  function Initial(start: nat): (c: Ctl)
    ensures !c.btnDown && !c.longFired && c.ui.Home? && c.index == 0
  {
    Ctl(false, false, start, start, false, Home, 0)
  }

  /** One raw sample of the button line (true = pressed) at time `now`. */
  datatype Sample = Sample(raw: bool, now: nat)

  /** The state after a tick, and which handlers the tick ran. */
  datatype Outcome = Outcome(next: Ctl, long: bool, short: bool)

  /** One tick: record a raw change, and only when the raw level has been
      constant for the debounce window detect a rising edge, a long press
      while held, and a falling edge whose short press is suppressed when the
      long press of this press has fired. */
  function Step(c: Ctl, raw: bool, now: nat): (o: Outcome)
    requires c.index < 255
    ensures o.next.rawLast == raw
    // the debounce timer moves only when the raw level changes
    ensures raw == c.rawLast ==> o.next.changedAt == c.changedAt
    // a raw change restarts the debounce window and has no other effect
    ensures raw != c.rawLast ==> o.next == c.(rawLast := raw, changedAt := now) && !o.long && !o.short
    ensures Elapsed(now, o.next.changedAt) < DEBOUNCE_MS ==>
              o.next == c.(rawLast := raw, changedAt := o.next.changedAt) && !o.long && !o.short
    // the debounced level changes only to a raw level held for the window
    ensures o.next.btnDown != c.btnDown ==>
              raw == c.rawLast && Elapsed(now, c.changedAt) >= DEBOUNCE_MS && o.next.btnDown == raw
    // and a raw level held for the window always becomes the debounced level
    ensures raw == c.rawLast && Elapsed(now, c.changedAt) >= DEBOUNCE_MS ==> o.next.btnDown == raw
    // a rising edge starts the press timer and re-arms the long press
    ensures !c.btnDown && o.next.btnDown ==> o.next.pressedAt == now && !o.next.longFired && !o.long
    ensures c.btnDown || !o.next.btnDown ==> o.next.pressedAt == c.pressedAt
    // the long-press handler runs exactly when it sets the flag, on a press
    // that has been held for the threshold
    ensures o.long <==> !c.longFired && o.next.longFired
    ensures o.long ==> c.btnDown && Elapsed(now, c.pressedAt) >= LONG_PRESS_MS
    // and a long press that is due on a stable tick always fires
    ensures (raw == c.rawLast && Elapsed(now, c.changedAt) >= DEBOUNCE_MS && c.btnDown && !c.longFired
             && Elapsed(now, c.pressedAt) >= LONG_PRESS_MS) ==> o.long
    // a stable release before the threshold always runs the short press
    ensures (!raw && raw == c.rawLast && Elapsed(now, c.changedAt) >= DEBOUNCE_MS && c.btnDown && !c.longFired
             && Elapsed(now, c.pressedAt) < LONG_PRESS_MS) ==> o.short
    // the flag is cleared only on a rising edge
    ensures c.longFired && !o.next.longFired ==> !c.btnDown && o.next.btnDown
    // a release runs the short-press handler exactly when no long press fired
    ensures o.short <==> c.btnDown && !o.next.btnDown && !o.next.longFired
    // navigation changes only through the handlers
    ensures !o.long && !o.short ==> o.next.ui == c.ui && o.next.index == c.index
    ensures o.long ==> o.next.ui == LongPress(c.ui, c.index) && o.next.index == c.index
    ensures o.short ==> Nav(o.next.ui, o.next.index) == ShortPress(c.ui, c.index)
    ensures o.next.index < 255
    ensures c.index < MENU_ENTRIES ==> o.next.index < MENU_ENTRIES
  {
    var (rawLast, changedAt) := if raw != c.rawLast then (raw, now) else (c.rawLast, c.changedAt);
    var c1 := c.(rawLast := rawLast, changedAt := changedAt);
    if Elapsed(now, changedAt) < DEBOUNCE_MS then Outcome(c1, false, false)
    else
      var c2 := if raw && !c1.btnDown then c1.(btnDown := true, pressedAt := now, longFired := false) else c1;
      var long := c2.btnDown && !c2.longFired && Elapsed(now, c2.pressedAt) >= LONG_PRESS_MS;
      var c3 := if long then c2.(longFired := true, ui := LongPress(c2.ui, c2.index)) else c2;
      var falling := !raw && c3.btnDown;
      var short := falling && !c3.longFired;
      var c4 := if falling then c3.(btnDown := false) else c3;
      var c5 := if short then (var n := ShortPress(c4.ui, c4.index); c4.(ui := n.state, index := n.index)) else c4;
      Outcome(c5, long, short)
  }

  /** The state after a tick on each sample of `s`, in order. */
  function Run(c: Ctl, s: seq<Sample>): (r: Ctl)
    requires c.index < 255
    ensures r.index < 255
    ensures c.index < MENU_ENTRIES ==> r.index < MENU_ENTRIES
    decreases |s|
  {
    if s == [] then c
    else
      var last := s[|s| - 1];
      Step(Run(c, s[..|s| - 1]), last.raw, last.now).next
  }

  /** How many ticks of the run fired the long-press handler. */
  function LongCount(c: Ctl, s: seq<Sample>): nat
    requires c.index < 255
    decreases |s|
  {
    if s == [] then 0
    else
      var last := s[|s| - 1];
      LongCount(c, s[..|s| - 1]) + if Step(Run(c, s[..|s| - 1]), last.raw, last.now).long then 1 else 0
  }

  /** How many ticks of the run fired the short-press handler. */
  function ShortCount(c: Ctl, s: seq<Sample>): nat
    requires c.index < 255
    decreases |s|
  {
    if s == [] then 0
    else
      var last := s[|s| - 1];
      ShortCount(c, s[..|s| - 1]) + if Step(Run(c, s[..|s| - 1]), last.raw, last.now).short then 1 else 0
  }

  /** How many debounced presses (rising edges) began during the run. */
  function PressCount(c: Ctl, s: seq<Sample>): nat
    requires c.index < 255
    decreases |s|
  {
    if s == [] then 0
    else
      PressCount(c, s[..|s| - 1]) + if !Run(c, s[..|s| - 1]).btnDown && Run(c, s).btnDown then 1 else 0
  }

  /** The long-press handler runs at most once per press: over any run, the
      long presses fired are bounded by the presses begun, plus one for a
      press already in progress whose long press has not fired yet. */
  lemma {:induction false} LongPressOncePerPress(c: Ctl, s: seq<Sample>)
    requires c.index < 255
    ensures LongCount(c, s) + (if Run(c, s).longFired then 0 else 1)
            <= PressCount(c, s) + (if c.longFired then 0 else 1)
    decreases |s|
  {
    if s != [] {
      LongPressOncePerPress(c, s[..|s| - 1]);
    }
  }

  /** Without a new press, at most one long press fires, and none when the
      long press of the current press had already fired. */
  lemma LongPressNotRepeated(c: Ctl, s: seq<Sample>)
    requires c.index < 255
    requires PressCount(c, s) == 0
    ensures LongCount(c, s) <= 1
    ensures c.longFired ==> LongCount(c, s) == 0
  {
    LongPressOncePerPress(c, s);
  }

  /** Sample times never go backwards. */
  ghost predicate Monotone(s: seq<Sample>) {
    forall i, j :: 0 <= i <= j < |s| ==> s[i].now <= s[j].now
  }

  /** The raw level the debouncer last saw before sample `j`. */
  function RawBefore(c: Ctl, s: seq<Sample>, j: nat): bool
    requires j <= |s|
  {
    if j == 0 then c.rawLast else s[j - 1].raw
  }

  /** Sample `j` differs from the raw level seen before it. */
  predicate RawChangesAt(c: Ctl, s: seq<Sample>, j: nat)
    requires j < |s|
  {
    s[j].raw != RawBefore(c, s, j)
  }

  /** Sample `i` comes less than the debounce window after some raw change
      at or before it, or, in a run that starts after the last recorded
      change, less than the window after that change. */
  ghost predicate UnsettledAt(c: Ctl, s: seq<Sample>, i: nat)
    requires i < |s|
  {
    || (exists j :: 0 <= j <= i && RawChangesAt(c, s, j) && s[i].now < s[j].now + DEBOUNCE_MS)
    || (c.changedAt <= s[0].now && s[i].now < c.changedAt + DEBOUNCE_MS)
  }

  /** The raw line never settles: no sample comes a full debounce window
      after the last raw change. */
  ghost predicate NeverSettles(c: Ctl, s: seq<Sample>) {
    forall i :: 0 <= i < |s| ==> UnsettledAt(c, s, i)
  }

  /** After `n` ticks the debouncer's last raw level is the `n`-th sample's. */
  lemma {:induction false} RunRawLast(c: Ctl, s: seq<Sample>, n: nat)
    requires c.index < 255 && n <= |s|
    ensures Run(c, s[..n]).rawLast == RawBefore(c, s, n)
  {
    if n > 0 {
      assert s[..n][..n - 1] == s[..n - 1];
    }
  }

  /** With monotone times, the debounce timer after `n` ticks is no earlier
      than any raw change among them. */
  lemma {:induction false} ChangedAtAfterChange(c: Ctl, s: seq<Sample>, n: nat, j: nat)
    requires c.index < 255 && Monotone(s)
    requires j < n <= |s| && RawChangesAt(c, s, j)
    ensures Run(c, s[..n]).changedAt >= s[j].now
    decreases n
  {
    assert s[..n][..n - 1] == s[..n - 1];
    RunRawLast(c, s, n - 1);
    if j < n - 1 && !RawChangesAt(c, s, n - 1) {
      ChangedAtAfterChange(c, s, n - 1, j);
    }
  }

  /** With monotone times starting no earlier than the recorded change, the
      debounce timer never moves back before that change. */
  lemma {:induction false} ChangedAtNotBefore(c: Ctl, s: seq<Sample>, n: nat)
    requires c.index < 255 && Monotone(s) && n <= |s|
    requires s != [] ==> c.changedAt <= s[0].now
    ensures Run(c, s[..n]).changedAt >= c.changedAt
    decreases n
  {
    if n > 0 {
      assert s[..n][..n - 1] == s[..n - 1];
      ChangedAtNotBefore(c, s, n - 1);
    } else {
      assert s[..0] == [];
    }
  }

  /** A tick whose sample comes less than the debounce window after the raw
      change that the timer last recorded changes only the raw bookkeeping. */
  lemma {:induction false} UnsettledTick(c: Ctl, s: seq<Sample>, n: nat)
    requires c.index < 255 && 0 < n <= |s|
    requires Elapsed(s[n - 1].now, Run(c, s[..n]).changedAt) < DEBOUNCE_MS
    ensures var p := Run(c, s[..n - 1]);
            var r := Run(c, s[..n]);
            r == p.(rawLast := r.rawLast, changedAt := r.changedAt)
    ensures LongCount(c, s[..n]) == LongCount(c, s[..n - 1])
    ensures ShortCount(c, s[..n]) == ShortCount(c, s[..n - 1])
  {
    assert s[..n][..n - 1] == s[..n - 1];
    assert s[..n][n - 1] == s[n - 1];
  }

  /** Anti-bounce over the first `n` ticks of a run that never settles. */
  lemma {:induction false} BounceUpTo(c: Ctl, s: seq<Sample>, n: nat)
    requires c.index < 255 && Monotone(s) && NeverSettles(c, s) && n <= |s|
    ensures var r := Run(c, s[..n]);
            r.btnDown == c.btnDown && r.longFired == c.longFired && r.pressedAt == c.pressedAt
            && r.ui == c.ui && r.index == c.index
    ensures LongCount(c, s[..n]) == 0 && ShortCount(c, s[..n]) == 0
    decreases n
  {
    if n > 0 {
      BounceUpTo(c, s, n - 1);
      var i := n - 1;
      assert UnsettledAt(c, s, i);
      if exists j :: 0 <= j <= i && RawChangesAt(c, s, j) && s[i].now < s[j].now + DEBOUNCE_MS {
        var j :| 0 <= j <= i && RawChangesAt(c, s, j) && s[i].now < s[j].now + DEBOUNCE_MS;
        ChangedAtAfterChange(c, s, n, j);
      } else {
        ChangedAtNotBefore(c, s, n);
      }
      UnsettledTick(c, s, n);
    } else {
      assert s[..0] == [];
    }
  }

  /** A raw line that bounces faster than the debounce window never changes
      the debounced level, never fires a handler and never changes the
      screen or the selection. */
  lemma BounceNeverRegisters(c: Ctl, s: seq<Sample>)
    requires c.index < 255 && Monotone(s) && NeverSettles(c, s)
    ensures Run(c, s).btnDown == c.btnDown
    ensures Run(c, s).ui == c.ui && Run(c, s).index == c.index
    ensures LongCount(c, s) == 0 && ShortCount(c, s) == 0
  {
    BounceUpTo(c, s, |s|);
    assert s[..|s|] == s;
  }

  /** A press held for 2000 ms from Home: the press registers after the
      debounce window, the long press fires at the threshold and opens the
      menu, and the release runs no short press. */
  lemma LongHoldScenario()
    ensures var s := [Sample(true, 0), Sample(true, 30), Sample(true, 1630),
                      Sample(false, 2000), Sample(false, 2030)];
            var r := Run(Initial(0), s);
            r.ui.Menu? && r.index == 0 && !r.btnDown
            && LongCount(Initial(0), s) == 1 && ShortCount(Initial(0), s) == 0
    // the press registers at 30 ms, and nothing has fired yet
    ensures var s := [Sample(true, 0), Sample(true, 30)];
            Run(Initial(0), s).btnDown && Run(Initial(0), s).pressedAt == 30 && LongCount(Initial(0), s) == 0
    // the long press fires at 1630 ms, 1600 ms after the press registered
    ensures var s := [Sample(true, 0), Sample(true, 30), Sample(true, 1630)];
            Run(Initial(0), s).ui.Menu? && Run(Initial(0), s).longFired && LongCount(Initial(0), s) == 1
  {
    var s := [Sample(true, 0), Sample(true, 30), Sample(true, 1630),
              Sample(false, 2000), Sample(false, 2030)];
    var c := Initial(0);
    assert s[..0] == [];
    assert s[..1][..0] == [] && s[..2][..1] == s[..1] && s[..3][..2] == s[..2];
    assert s[..4][..3] == s[..3] && s[..5][..4] == s[..4] && s[..5] == s;
    assert Run(c, s[..1]) == c.(rawLast := true);
    assert Run(c, s[..2]) == c.(rawLast := true, btnDown := true, pressedAt := 30);
    assert Run(c, s[..3]) == c.(rawLast := true, btnDown := true, pressedAt := 30, longFired := true, ui := Menu);
    assert Run(c, s[..4]) == Run(c, s[..3]).(rawLast := false, changedAt := 2000);
    assert LongCount(c, s[..1]) == 0 && ShortCount(c, s[..1]) == 0;
    assert LongCount(c, s[..2]) == 0 && ShortCount(c, s[..2]) == 0;
    assert LongCount(c, s[..3]) == 1 && ShortCount(c, s[..3]) == 0;
    assert LongCount(c, s[..4]) == 1 && ShortCount(c, s[..4]) == 0;
    assert s[..2] == [Sample(true, 0), Sample(true, 30)];
    assert s[..3] == [Sample(true, 0), Sample(true, 30), Sample(true, 1630)];
  }

  /** A raw press of 1600 ms from Home: the press is debounced at 30 ms and
      the release only at 1630 ms, so the debounced press also lasts 1600 ms.
      On that tick the long-press check runs before the falling-edge check:
      one long press fires, opening the menu, and the release runs no short
      press, both in the same tick. */
  lemma ReleaseWithinWindowScenario()
    ensures var s := [Sample(true, 0), Sample(true, 30), Sample(false, 1600), Sample(false, 1630)];
            var r := Run(Initial(0), s);
            r.ui.Menu? && r.index == 0 && !r.btnDown && r.longFired
            && LongCount(Initial(0), s) == 1 && ShortCount(Initial(0), s) == 0
    // up to the raw release no long press has fired
    ensures var s := [Sample(true, 0), Sample(true, 30), Sample(false, 1600)];
            Run(Initial(0), s).btnDown && LongCount(Initial(0), s) == 0
  {
    var s := [Sample(true, 0), Sample(true, 30), Sample(false, 1600), Sample(false, 1630)];
    var c := Initial(0);
    assert s[..1][..0] == [] && s[..2][..1] == s[..1] && s[..3][..2] == s[..2];
    assert s[..4][..3] == s[..3] && s[..4] == s;
    assert Run(c, s[..1]) == c.(rawLast := true);
    assert Run(c, s[..2]) == c.(rawLast := true, btnDown := true, pressedAt := 30);
    assert Run(c, s[..3]) == Run(c, s[..2]).(rawLast := false, changedAt := 1600);
    assert LongCount(c, s[..1]) == 0 && ShortCount(c, s[..1]) == 0;
    assert LongCount(c, s[..2]) == 0 && ShortCount(c, s[..2]) == 0;
    assert LongCount(c, s[..3]) == 0 && ShortCount(c, s[..3]) == 0;
    assert s[..3] == [Sample(true, 0), Sample(true, 30), Sample(false, 1600)];
  }

  /** A brief press in the menu with the second entry selected: exactly one
      short press, which selects the third entry. */
  lemma ShortPressScenario()
    ensures var c := Initial(0).(ui := Menu, index := 1);
            var s := [Sample(true, 0), Sample(true, 30), Sample(false, 200), Sample(false, 230)];
            var r := Run(c, s);
            r.ui.Menu? && r.index == 2 && !r.btnDown
            && LongCount(c, s) == 0 && ShortCount(c, s) == 1
  {
    var c := Initial(0).(ui := Menu, index := 1);
    var s := [Sample(true, 0), Sample(true, 30), Sample(false, 200), Sample(false, 230)];
    assert s[..1][..0] == [] && s[..2][..1] == s[..1] && s[..3][..2] == s[..2];
    assert s[..4][..3] == s[..3] && s[..4] == s;
    assert Run(c, s[..1]) == c.(rawLast := true);
    assert Run(c, s[..2]) == c.(rawLast := true, btnDown := true, pressedAt := 30);
    assert Run(c, s[..3]) == Run(c, s[..2]).(rawLast := false, changedAt := 200);
    assert LongCount(c, s[..1]) == 0 && ShortCount(c, s[..1]) == 0;
    assert LongCount(c, s[..2]) == 0 && ShortCount(c, s[..2]) == 0;
    assert LongCount(c, s[..3]) == 0 && ShortCount(c, s[..3]) == 0;
  }
}
