# EyesightBreak, modelled in Dafny

EyesightBreak is a periodic eye-break reminder. Every interval it warns the user with a
desktop notification. It then covers every monitor with a window that shows an advice
message and a countdown. The user can skip the break (Escape) or postpone it (space), or
let the countdown run out. A counter of breaks taken decides whether the next break is
short or long.

The model covers the logic of the three layouts of the program:

- the package under `src/eyesight_break/`;
- the monolithic script `src/eyesight_break.py`;
- the older script `eyesightbreak.py`.

The modules are:

- `Decimal` (decimal.dfy): decimal digits of a natural number, and Python's two-digit
  integer field `f'{n:02}'`. It also has the inverse parse of a digit string, which the
  round-trip proofs use.
- `Countdown` (timer.dfy): `format_time`, and everything the generator `timer(seconds)`
  yields, as a sequence of `Option<string>`. `RunTimer` is the generator's own
  decrementing `while` loop, proved to produce that sequence. The function
  `FormatTime` is `format_time`, and `Timer(seconds)` is what `timer(seconds)` yields.
- `Catalog` (config.dfy): `BreakType`, `BreakConfig`, the `BREAKS` table and the
  scheduling constants. `BreakConfig` is a datatype, so its fields are its four
  arguments by construction.
- `Overlay` (overlay.dfy): one break occurrence, that is `show_break` and the
  `update_timer_label` callback of `create_window`.
  - The event loop is a state machine over the events it runs: Escape or space on a
    window, and a firing of a window's one-second timer callback.
  - The state holds the nonlocal `postponed` flag, whether `root` is still alive, and
    the windows.
  - A window holds its message, how many values its generator has handed out, and the
    time its label shows. The machine is stated for any generator of that shape;
    `show_break` gives each window its own `timer(duration)`.
  - `Step` is one callback, `Run` runs the events in order, and `Resolve(d, texts,
    script)` is what `show_break` returns: `None` while `root` is alive, otherwise the
    `postponed` flag.
  - `ResolveFirstDecisive` characterises the result: the first deciding event wins.
  - `ShowBreak`, `LegacyShowBreak` and `EventLoop` are the imperative monitor loop and
    event loop, proved to agree with the machine.
- `Scheduler` (scheduler.dfy): the `while True` loop of `main()`, and the module-level
  loops of the two scripts.
  - The outcome of each break is an input sequence, so a run has as many cycles as
    there are outcomes.
  - Sleeps, notifications and shown breaks are recorded as a trace of actions.
  - `KindFor` is the choice of kind and `NextCounter` the counter update of one cycle.
    `CycleActions` is that cycle's actions. `CounterAfter`, `Kinds` and `Trace` give the
    counter, the kinds and the trace after a run.
  - `main()` keeps its counter in a local, so it becomes a method with a loop. The
    scripts keep theirs in a global, so they become the class `ScriptLoop`.

The three layouts share code, and each shared piece is modelled once. The rows below
cite the package copy.

- `format_time` and `timer` read the same in `src/eyesight_break/timer.py`,
  `src/eyesight_break/gui.py`, `src/eyesight_break.py` and `eyesightbreak.py`. The
  `Countdown` lemmas hold for every copy.
- `gui.py` has no catalog of its own: it imports `BREAKS` from `config.py`.
  `src/eyesight_break.py` repeats the catalog and the three constants.
  `eyesightbreak.py` has the same `BREAKS` values and `INTERVAL_UNIT` and
  `SHORTS_INTERVALS_PER_LONG`, but no `PREV_TIME`. The facts about `PREV_TIME` (the
  third `ensures` of `Catalog.Breaks`, and `Catalog.LeadTimeFitsInterval`) therefore
  concern the other two layouts only.
- `show_break` is the same in `gui.py` and `src/eyesight_break.py`. The
  `eyesightbreak.py` version is a different function, because it draws the message
  inside the monitor loop.

Where the layouts differ, the model has a member for each variant:

- eyesightbreak.py picks the message once per monitor (`LegacyTexts`,
  `CreateLegacyWindows`, `LegacyShowBreak`).
- eyesightbreak.py sleeps the whole interval and sends no notification (layout
  `Legacy`).
- eyesightbreak.py shows one initial short break and discards its result
  (`ScriptLoop.constructor`).

The code does not always do what its names and comments suggest. The model follows the
code:

- The long break is chosen when `break_counter % 3 != 0`, so counters 1, 2, 4, 5, …
  give LONG and 0, 3, 6, … give SHORT. Without postponements the kinds therefore run
  SHORT, LONG, LONG, SHORT, … The docstring of `SHORTS_INTERVALS_PER_LONG`, "Amount
  of short breaks (+1) that are between two long breaks" (src/eyesight_break/config.py:34),
  suggests LONG, SHORT, SHORT, LONG, … instead (`KindFor`, `UninterruptedCadence`).
- `BreakConfig` stores `postponeable` (src/eyesight_break/config.py:18), but
  `show_break` never reads it. The space key postpones on every window, so even the
  short break, which is marked not postponeable, can be postponed
  (`ShortBreakPostponable`).
- With zero monitors no window exists and nothing ever destroys `root`, so
  `mainloop()` blocks. The model claims no outcome: no event can be delivered, and
  `Resolve` stays `None`.
- Each window has its own `timer(duration)` generator. The generators are ticked
  independently, and the first window to draw `None` ends the occurrence.
- A cycle sleeps `INTERVAL_UNIT` seconds whatever the kind. The long break's own
  `interval` (1800) is never used (`CycleSleepIgnoresKind`).

## Model

| member | source | states |
|---|---|---|
| `Decimal.DigitsShape` | src/eyesight_break/timer.py:19 | the decimal rendering of n is a non-empty digit string; it has one digit exactly when n < 10, and at most two exactly when n < 100 |
| `Decimal.ParseDigitsOfDigits` | src/eyesight_break/timer.py:19 | reading back the decimal rendering of n gives n |
| `Decimal.LeadingZero` | src/eyesight_break/timer.py:19 | a leading '0' added to a digit string keeps it all digits and does not change its value |
| `Decimal.Pad2RoundTrip` | src/eyesight_break/timer.py:19 | `f'{n:02}'` for n ≥ 0 is all digits, reads back as n, has at least two characters, and has exactly two iff n < 100 |
| `Countdown.FormatTimeFields` | src/eyesight_break/timer.py:16-19 | for seconds ≥ 0 the output is the padded minutes `seconds // 60`, a colon three characters from the end, then padded `seconds % 60` in exactly two characters; each field reads back as its value |
| `Countdown.FormatTimeRoundTrip` | src/eyesight_break/timer.py:16-19 | parsing minutes and seconds back out of `format_time(x)` and recombining them gives x, with the seconds field below 60 |
| `Countdown.FormatTimeInjective` | src/eyesight_break/timer.py:16-19 | distinct non-negative second counts format differently |
| `Countdown.FormatTimeShape` | src/eyesight_break/timer.py:16-19 | minutes are not wrapped at 60; the output is exactly five characters iff seconds < 6000 |
| `Countdown.TwoDigits` | src/eyesight_break/timer.py:19 | for n < 100, `f'{n:02}'` is the tens digit followed by the units digit |
| `Countdown.FormatTimeExamples` | tests/test_timer.py:6-10 | 65 gives "01:05", 0 gives "00:00", 3599 gives "59:59", 3600 gives "60:00" |
| `Countdown.Yields` | src/eyesight_break/timer.py:33-38 | a countdown generator hands out one value per n from `seconds` down to 0 and then one None: `seconds + 2` values (1 when negative), None last, all before it present |
| `Countdown.YieldsAt` | src/eyesight_break/timer.py:33-36 | value i of such a generator, for 0 ≤ i ≤ seconds, is the item of n = seconds - i |
| `Countdown.TimerAt` | src/eyesight_break/timer.py:33-38 | item i of `timer(seconds)`, for 0 ≤ i ≤ seconds, is `format_time(seconds - i)` |
| `Countdown.RunTimer` | src/eyesight_break/timer.py:33-38 | the `while n >= 0` loop with its decrement, then the final `yield None`, yields exactly the countdown sequence |
| `Countdown.TimerEnd` | src/eyesight_break/timer.py:34-38 | None occurs in the sequence exactly at the last position |
| `Countdown.TimerCountsDown` | src/eyesight_break/timer.py:34-36 | a value yielded at position i, 0 ≤ i ≤ seconds, reads back as seconds - i, the seconds left |
| `Countdown.TimerDecreases` | src/eyesight_break/timer.py:34-36 | of two values yielded before None, the later one reads back as strictly fewer seconds |
| `Countdown.ReadBack` | src/eyesight_break/timer.py:16-19 | a string equal to `format_time(n)`, n ≥ 0, parses back to n |
| `Countdown.TimerExample` | tests/test_timer.py:13-18 | `timer(2)` yields "00:02", "00:01", "00:00", None |
| `Countdown.TimerNegative` | src/eyesight_break/timer.py:33-38 | for negative seconds the loop body never runs and the only value is None |
| `Catalog.ValuesDistinct` | src/eyesight_break/config.py:7-9 | the enum values are 'short' and 'long', and equal values mean equal kinds (`BreakKind` has exactly the two members) |
| `Catalog.Breaks` | src/eyesight_break/config.py:45-69 | every kind's duration is positive and below its interval, its message list is non-empty, and its interval exceeds the warning lead time |
| `Catalog.CatalogContents` | src/eyesight_break/config.py:45-69 | SHORT is 20 s, 600 s, not postponeable, 7 messages; LONG is 180 s, 1800 s, postponeable, 2 messages |
| `Catalog.LongIntervalIsMultiple` | src/eyesight_break/config.py:48-62 | LONG's interval is SHORTS_INTERVALS_PER_LONG times SHORT's, and SHORT's interval is INTERVAL_UNIT |
| `Catalog.LeadTimeFitsInterval` | src/eyesight_break/config.py:30-36 | 0 < PREV_TIME < INTERVAL_UNIT, so the first sleep of a cycle is positive |
| `Scheduler.KindFor` | src/eyesight_break/main.py:21-23 | the long break is chosen iff the counter is not a multiple of 3; the `!= 0` conjunct changes nothing |
| `Scheduler.Kinds` | src/eyesight_break/main.py:21-37 | one kind per cycle run |
| `Scheduler.Consumed` | src/eyesight_break/main.py:36-37 | the number of cycles that were not postponed is at most the number of cycles |
| `Scheduler.CycleSnoc` | src/eyesight_break/main.py:21-37 | one more cycle advances the counter by its outcome and appends that cycle's actions, for the kind chosen from the counter before it |
| `Scheduler.CounterCountsConsumed` | src/eyesight_break/main.py:35-37 | the counter grows by exactly one per non-postponed cycle, so it never decreases |
| `Scheduler.KindsAt` | src/eyesight_break/main.py:21-23 | cycle i shows the kind chosen from the counter left by the first i cycles |
| `Scheduler.PostponedRepeatsKind` | src/eyesight_break/main.py:35-37 | a cycle advances the counter by one unless postponed, and a postponed cycle is followed by a cycle of the same kind |
| `Scheduler.UninterruptedCadence` | src/eyesight_break/main.py:21-23 | from 0 without postponements, cycle i is SHORT iff i % 3 == 0, so the kinds run SHORT, LONG, LONG, … |
| `Scheduler.CycleSleepIgnoresKind` | src/eyesight_break/main.py:26-30 | a cycle sleeps INTERVAL_UNIT seconds in total for either kind, which differs from LONG's own interval |
| `Scheduler.TraceSleepTotal` | src/eyesight_break/main.py:26-30 | n cycles sleep exactly n × INTERVAL_UNIT seconds |
| `Scheduler.NotificationsPerLayout` | src/eyesight_break/main.py:26-33 | in `main()` and the loop of src/eyesight_break.py every notification is followed by the PREV_TIME sleep and then the break of the notified kind; the loop of eyesightbreak.py (lines 242-258) never notifies |
| `Scheduler.MainLoop` | src/eyesight_break/main.py:13-37 | `main()` from `break_counter = 0`: the final counter and the trace are those of the cycles run, in the order sleep, notify, sleep, show |
| `Scheduler.ScriptLoop.constructor` | eyesightbreak.py:238-240 | the global counter starts at 0; the older script's trace starts with the discarded initial SHORT break |
| `Scheduler.ScriptLoop.Cycle` | src/eyesight_break.py:265-283 | one pass: the kind from the current counter, that layout's actions appended, the counter advanced unless postponed |
| `Scheduler.ScriptLoop.Run` | src/eyesight_break.py:262-283 | repeated passes leave the counter and the trace of the cycles run |
| `Overlay.TimerIsCountdown` | src/eyesight_break/gui.py:158 | the generator each window gets, `timer(duration)`, has the countdown shape and hands out duration + 2 values |
| `Overlay.CountdownEnd` | src/eyesight_break/gui.py:56-61 | a generator of that shape hands out None once, as its last value |
| `Overlay.CreateWindow` | src/eyesight_break/gui.py:51-67 | a new window shows its message, has drawn two values (the initial label, then the immediate update) and shows the second |
| `Overlay.Open` | src/eyesight_break/gui.py:148-163 | before the event loop: one fresh window per monitor, in order, running and not postponed |
| `Overlay.Step` | src/eyesight_break/gui.py:55-65 | a callback keeps the session well formed, and does nothing once `root` is destroyed |
| `Overlay.Run` | src/eyesight_break/gui.py:165 | running the callbacks in order keeps the session well formed and changes nothing after `root` is destroyed |
| `Overlay.RunStopped` | src/eyesight_break/gui.py:133-134 | once `root` is destroyed, later events change nothing |
| `Overlay.EndsShift` | src/eyesight_break/gui.py:55-65 | after an event that does not end the session, each later event ends it exactly as it would have before |
| `Overlay.StepOutcome` | src/eyesight_break/gui.py:137-144 | the first event either ends the session, as postponed iff it is a space press, or draws one value on the ticked window only |
| `Overlay.NoEndsAfterStep` | src/eyesight_break/gui.py:55-65 | after a non-ending event, no event of the script ends the session iff none of the rest ends the new session |
| `Overlay.FirstEndsAfterStep` | src/eyesight_break/gui.py:55-65 | the first ending event of a script stays the first ending event of the rest after a non-ending event |
| `Overlay.RunCharacterised` | src/eyesight_break/gui.py:130-167 | the session is still running iff no event ends it; the result is the flag of the first ending event; while running, each window has drawn one value per callback and kept its text |
| `Overlay.OpenEndsIsDecisive` | src/eyesight_break/gui.py:51-67 | in a freshly opened session an event ends it iff it is a key press or the d-th callback of its window |
| `Overlay.ResolveFirstDecisive` | src/eyesight_break/gui.py:114-167 | `show_break` returns iff some event decides the occurrence, and then returns true iff the first deciding event is a space press; skip and expiry give false |
| `Overlay.RunAppend` | src/eyesight_break/gui.py:165 | running two scripts in turn equals running their concatenation |
| `Overlay.LaterEventsIgnored` | src/eyesight_break/gui.py:59-61 | once the occurrence is decided, further events leave the result unchanged |
| `Overlay.LabelsFollowCountdown` | src/eyesight_break/gui.py:55-67 | with no deciding event, the occurrence has no result yet and every window has drawn 2 + its callbacks so far, still showing its message |
| `Overlay.LabelsFollow` | src/eyesight_break/gui.py:55-65 | the same for any countdown-shaped generator: still running, drawn count and text as above |
| `Overlay.TimeLeftShown` | src/eyesight_break/gui.py:56-64 | a window counting down from d shows `format_time(d + 1 - drawn)`, the time left |
| `Overlay.ExpiresAfterDuration` | src/eyesight_break/gui.py:59-65 | with no key pressed, a window's d-th one-second callback ends the occurrence, not postponed |
| `Overlay.ShortBreakPostponable` | src/eyesight_break/gui.py:162-163 | the short break is not postponeable, yet a space press postpones it |
| `Overlay.SessionTexts` | src/eyesight_break/gui.py:146-161 | every window shows the one message drawn before the monitor loop, a member of the kind's list |
| `Overlay.LegacyTexts` | eyesightbreak.py:214-227 | the older script draws one message per monitor, each a member of the kind's list |
| `Overlay.EventLoop` | src/eyesight_break/gui.py:130-165 | the event loop with its `postponed` flag and the windows' generators returns what the state machine resolves |
| `Overlay.CreateWindows` | src/eyesight_break/gui.py:148-163 | the monitor loop creates one window per monitor, each a fresh window showing the shared message |
| `Overlay.CreateLegacyWindows` | eyesightbreak.py:214-229 | the older monitor loop creates the windows of the session opened with the per-monitor messages |
| `Overlay.ShowBreak` | src/eyesight_break/gui.py:114-167 | `show_break(kind)` returns what `Resolve` gives for the kind's duration and the shared message |
| `Overlay.LegacyShowBreak` | eyesightbreak.py:183-234 | the older `show_break(kind)` returns what `Resolve` gives for the kind's duration and the per-monitor messages |

## Left out

- Window construction and styling are not modelled: the tkinter calls, geometry,
  `WinConfig`, fonts, colours, transparency, fullscreen and label placement. A window is
  its message, its drawn count and its label text.
- `screeninfo.get_monitors` becomes a monitor count, or one pick per monitor in the
  older script. The monitor rectangles are not modelled.
- `send_notification`, `desktop_notifier`, `asyncio.run` and the icon path are left out.
  A notification is the trace action `Notify(kind)`; its text is not modelled.
- `time.sleep` is not executed: each sleep is the trace action `Sleep(seconds)`.
- `random.choice` becomes an index parameter (`pick`, `picks`), and the model proves that
  the chosen message is in the kind's list. Which message is drawn is not modelled.
- The infinite `while True` loops run only as many cycles as there are given outcomes.
- The one-second delay of `root.after(1000, …)` is not modelled. Only the order in which
  the event loop runs its callbacks is, and it is an input.
- Durations below 1 are outside the overlay model (`Resolve` requires d ≥ 1). With
  `timer(0)` the update at window creation draws None and destroys `root` before the
  event loop starts, which a model of the running loop cannot express. Every catalog
  duration is at least 20.
- `Countdown.FormatTime`: its lemmas are stated for non-negative seconds only, the only
  values `timer` formats.
- `Decimal.Pad2`: models only the `:02` field that the program uses, not Python's
  general format specification.
- A generator raising `StopIteration` after its final None is not modelled: no window
  draws again once it has drawn None, because that draw destroys `root`.
- tests/test_gui.py and tests/test_notifications.py exercise mocked toolkit and notifier
  objects only, so they have no counterpart here.
