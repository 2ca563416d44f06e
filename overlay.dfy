/**
  One break occurrence on screen: `show_break` and the timer-label callback of
  `create_window` in src/eyesight_break/gui.py (the same code is repeated in
  src/eyesight_break.py; eyesightbreak.py differs only in choosing the message
  per monitor). Windows are opaque except for what decides the outcome: the
  advice text they show, and the values their timer label has drawn from the
  window's own generator. Events are the key presses and the one-second timer
  callbacks, in the order the event loop runs them.

  The event loop is stated for any generator that hands out some values and
  then None (`gen` below is the whole sequence it hands out; every window has
  a generator of its own that hands out the same sequence); `show_break`
  gives each window `timer(duration)`, so `gen` is `Timer(duration)` there.
*/
module Overlay {
  import opened Wrappers
  import opened Countdown
  import opened Catalog
  import opened SeqFacts

  /**
    Escape (`skip_break`) and space (`postpone_break`) pressed on a window, and
    a firing of that window's pending `update_timer_label` callback.
  */
  datatype Event = Escape(window: nat) | Space(window: nat) | Tick(window: nat)

  /**
    An overlay window: the advice message, how many values the window's
    generator has handed out (the `next` calls so far), and the text the timer
    label shows now.
  */
  datatype Window = Window(text: string, drawn: nat, timeLeft: string)

  /** The nonlocal `postponed` flag, whether `root` is still alive, and the windows. */
  datatype Session = Session(postponed: bool, running: bool, windows: seq<Window>)

  /** Everything a generator hands out: at least one label text, then None as its last value. */
  predicate IsCountdown(gen: seq<Option<string>>) {
    |gen| >= 2 && gen[|gen| - 1].None? && forall i :: 0 <= i < |gen| - 1 ==> gen[i].Some?
  }

  lemma {:induction false} TimerIsCountdown(d: nat)
    ensures IsCountdown(Timer(d)) && |Timer(d)| == d + 2
  {
  }

  /** A generator hands out None exactly once, as its last value. */
  lemma {:induction false} CountdownEnd(gen: seq<Option<string>>, k: int)
    requires IsCountdown(gen) && 0 <= k < |gen|
    ensures gen[k].None? <==> k == |gen| - 1
  {
  }

  /**
    A window whose generator has handed out its first `drawn` values, all of
    them label texts, and not yet the terminal None; the label shows the last.
  */
  predicate WindowValid(gen: seq<Option<string>>, w: Window) {
    2 <= w.drawn < |gen| && gen[w.drawn - 1] == Some(w.timeLeft)
  }

  predicate Valid(gen: seq<Option<string>>, s: Session) {
    IsCountdown(gen) && (s.postponed ==> !s.running) &&
    forall w :: 0 <= w < |s.windows| ==> WindowValid(gen, s.windows[w])
  }

  predicate Targets(script: seq<Event>, count: nat) {
    forall i :: 0 <= i < |script| ==> script[i].window < count
  }

  /**
    `create_window`: the timer label starts with `next(timer)`, and the
    immediate `update_timer_label(timer)` call draws the second value and
    schedules the first one-second callback.
  */
  function CreateWindow(text: string, gen: seq<Option<string>>): (w: Window)
    requires IsCountdown(gen) && |gen| >= 3
    ensures WindowValid(gen, w) && w.text == text && w.drawn == 2
  {
    var second := gen[1];
    Window(text, 2, second.value)
  }

  /** The session just before `root.mainloop()`: one fresh window per monitor, in monitor order. */
  function Open(gen: seq<Option<string>>, texts: seq<string>): (s: Session)
    requires IsCountdown(gen) && |gen| >= 3
    ensures Valid(gen, s) && s.running && !s.postponed && |s.windows| == |texts|
    ensures forall w :: 0 <= w < |texts| ==> s.windows[w] == CreateWindow(texts[w], gen)
  {
    Session(false, true, seq(|texts|, w requires 0 <= w < |texts| => CreateWindow(texts[w], gen)))
  }

  /**
    The callback an event runs. Once `root` is destroyed the event loop has
    returned and nothing runs any more.
  */
  function Step(gen: seq<Option<string>>, s: Session, e: Event): (t: Session)
    requires Valid(gen, s) && e.window < |s.windows|
    ensures Valid(gen, t) && |t.windows| == |s.windows|
    ensures !s.running ==> t == s
  {
    if !s.running then s
    else match e
      case Escape(_) => s.(running := false)
      case Space(_) => s.(postponed := true, running := false)
      case Tick(w) =>
        var win := s.windows[w];
        var next := gen[win.drawn];
        if next.None? then s.(running := false)
        else s.(windows := s.windows[w := win.(drawn := win.drawn + 1, timeLeft := next.value)])
  }

  function Run(gen: seq<Option<string>>, s: Session, script: seq<Event>): (t: Session)
    requires Valid(gen, s) && Targets(script, |s.windows|)
    ensures Valid(gen, t) && |t.windows| == |s.windows|
    ensures !s.running ==> t == s
    decreases |script|
  {
    if script == [] then s else Run(gen, Step(gen, s, script[0]), script[1..])
  }

  /** What `show_break` returns once its event loop has ended; None while `root` is still alive. */
  function Outcome(t: Session): Option<bool> {
    if t.running then None else Some(t.postponed)
  }

  /** The result of an occurrence of duration d: every window counts down with `timer(d)`. */
  function Resolve(d: nat, texts: seq<string>, script: seq<Event>): Option<bool>
    requires d >= 1 && Targets(script, |texts|)
  {
    Outcome(Run(Timer(d), Open(Timer(d), texts), script))
  }

  // ---- The reference characterisation: the first deciding event wins ----

  /** How many timer callbacks of window w the script holds. */
  function Ticks(script: seq<Event>, w: nat): nat
    decreases |script|
  {
    if script == [] then 0 else (if script[0] == Tick(w) then 1 else 0) + Ticks(script[1..], w)
  }

  /**
    Event i decides the occurrence when it is a key press, or when it is the
    d-th timer callback of its window (the one that draws None).
  */
  predicate Decisive(d: nat, script: seq<Event>, i: nat)
    requires i < |script|
  {
    match script[i]
    case Escape(_) => true
    case Space(_) => true
    case Tick(w) => Ticks(script[..i + 1], w) == d
  }

  /** The same condition relative to a session that may already have drawn values. */
  predicate Ends(gen: seq<Option<string>>, s: Session, script: seq<Event>, i: nat)
    requires i < |script| && Targets(script, |s.windows|)
  {
    match script[i]
    case Escape(_) => true
    case Space(_) => true
    case Tick(w) => s.windows[w].drawn + Ticks(script[..i], w) == |gen| - 1
  }

  lemma {:induction false} TicksSnoc(script: seq<Event>, e: Event, w: nat)
    ensures Ticks(script + [e], w) == Ticks(script, w) + (if e == Tick(w) then 1 else 0)
    decreases |script|
  {
    if script == [] {
      assert script + [e] == [e];
    } else {
      assert (script + [e])[1..] == script[1..] + [e];
      TicksSnoc(script[1..], e, w);
    }
  }

  lemma {:induction false} RunStopped(gen: seq<Option<string>>, s: Session, script: seq<Event>)
    requires Valid(gen, s) && Targets(script, |s.windows|) && !s.running
    ensures Run(gen, s, script) == s
  {
  }

  /** After an event that does not end a session, the later events end it exactly when they did before. */
  lemma {:induction false} EndsShift(gen: seq<Option<string>>, s: Session, script: seq<Event>, j: nat)
    requires Valid(gen, s) && s.running && Targets(script, |s.windows|)
    requires 0 < |script| && !Ends(gen, s, script, 0)
    requires j + 1 < |script|
    ensures Targets(script[1..], |s.windows|)
    ensures Ends(gen, Step(gen, s, script[0]), script[1..], j) == Ends(gen, s, script, j + 1)
  {
    var e, rest := script[0], script[1..];
    var t := Step(gen, s, e);
    assert rest[j] == script[j + 1];
    assert script[..j + 1] == [e] + rest[..j];
    assert ([e] + rest[..j])[1..] == rest[..j];
    if rest[j].Tick? {
      var v := rest[j].window;
      var w := e.window;
      var win := s.windows[w];
      CountdownEnd(gen, win.drawn);
      assert t.windows[v].drawn == s.windows[v].drawn + (if e == Tick(v) then 1 else 0);
    }
  }

  lemma {:induction false} TargetsTail(script: seq<Event>, count: nat)
    requires Targets(script, count) && |script| > 0
    ensures Targets(script[1..], count)
  {
    forall j | 0 <= j < |script| - 1 ensures script[1..][j].window < count {
      assert script[1..][j] == script[j + 1];
    }
  }

  /**
    The first event of a running session either ends it, with the flag that
    event sets, or leaves it running with one more value drawn on the ticked
    window and nothing else changed.
  */
  lemma {:induction false} StepOutcome(gen: seq<Option<string>>, s: Session, script: seq<Event>)
    requires Valid(gen, s) && s.running && Targets(script, |s.windows|) && |script| > 0
    ensures var t := Step(gen, s, script[0]);
      (Ends(gen, s, script, 0) ==> !t.running && t.postponed == script[0].Space?) &&
      (!Ends(gen, s, script, 0) ==>
        t.running && !t.postponed &&
        forall v :: 0 <= v < |s.windows| ==>
          (t.windows[v].drawn == s.windows[v].drawn + (if script[0] == Tick(v) then 1 else 0) &&
           t.windows[v].text == s.windows[v].text))
  {
    assert script[..0] == [];
    if script[0].Tick? {
      CountdownEnd(gen, s.windows[script[0].window].drawn);
    }
  }

  lemma {:induction false} NoEndsAfterStep(gen: seq<Option<string>>, s: Session, script: seq<Event>)
    requires Valid(gen, s) && s.running && Targets(script, |s.windows|)
    requires 0 < |script| && !Ends(gen, s, script, 0)
    ensures Targets(script[1..], |s.windows|)
    ensures (forall j :: 0 <= j < |script| ==> !Ends(gen, s, script, j)) <==>
      (forall j :: 0 <= j < |script| - 1 ==> !Ends(gen, Step(gen, s, script[0]), script[1..], j))
  {
    TargetsTail(script, |s.windows|);
    forall j | 0 <= j < |script| - 1
      ensures Ends(gen, Step(gen, s, script[0]), script[1..], j) == Ends(gen, s, script, j + 1)
    {
      EndsShift(gen, s, script, j);
    }
    if forall j :: 0 <= j < |script| - 1 ==> !Ends(gen, Step(gen, s, script[0]), script[1..], j) {
      forall j | 0 <= j < |script| ensures !Ends(gen, s, script, j) {
        if j > 0 {
          assert !Ends(gen, Step(gen, s, script[0]), script[1..], j - 1);
        }
      }
    }
  }

  lemma {:induction false} FirstEndsAfterStep(gen: seq<Option<string>>, s: Session, script: seq<Event>, i: nat)
    requires Valid(gen, s) && s.running && Targets(script, |s.windows|)
    requires 0 < |script| && !Ends(gen, s, script, 0)
    requires i < |script| && Ends(gen, s, script, i) && forall j :: 0 <= j < i ==> !Ends(gen, s, script, j)
    ensures Targets(script[1..], |s.windows|) && 0 < i && script[1..][i - 1] == script[i]
    ensures Ends(gen, Step(gen, s, script[0]), script[1..], i - 1)
    ensures forall j :: 0 <= j < i - 1 ==> !Ends(gen, Step(gen, s, script[0]), script[1..], j)
  {
    TargetsTail(script, |s.windows|);
    EndsShift(gen, s, script, i - 1);
    forall j | 0 <= j < i - 1 ensures !Ends(gen, Step(gen, s, script[0]), script[1..], j) {
      EndsShift(gen, s, script, j);
    }
  }

  lemma {:induction false} RunCharacterised(gen: seq<Option<string>>, s: Session, script: seq<Event>)
    requires Valid(gen, s) && s.running && Targets(script, |s.windows|)
    ensures Run(gen, s, script).running <==> forall j :: 0 <= j < |script| ==> !Ends(gen, s, script, j)
    ensures forall i ::
      (0 <= i < |script| && Ends(gen, s, script, i) && (forall j :: 0 <= j < i ==> !Ends(gen, s, script, j))) ==>
      Run(gen, s, script).postponed == script[i].Space?
    ensures Run(gen, s, script).running ==>
      !Run(gen, s, script).postponed &&
      forall w :: 0 <= w < |s.windows| ==>
        Run(gen, s, script).windows[w].drawn == s.windows[w].drawn + Ticks(script, w) &&
        Run(gen, s, script).windows[w].text == s.windows[w].text
    decreases |script|
  {
    if script != [] {
      var e, rest := script[0], script[1..];
      var t := Step(gen, s, e);
      TargetsTail(script, |s.windows|);
      assert Run(gen, s, script) == Run(gen, t, rest);
      StepOutcome(gen, s, script);
      if Ends(gen, s, script, 0) {
        RunStopped(gen, t, rest);
      } else {
        RunCharacterised(gen, t, rest);
        NoEndsAfterStep(gen, s, script);
        forall i | 0 <= i < |script| && Ends(gen, s, script, i) &&
          (forall j :: 0 <= j < i ==> !Ends(gen, s, script, j))
          ensures Run(gen, s, script).postponed == script[i].Space?
        {
          FirstEndsAfterStep(gen, s, script, i);
        }
      }
    }
  }

  /**
    For a freshly opened session, ending is deciding: with d + 2 values to
    hand out, the d-th callback of a window draws None.
  */
  lemma {:induction false} OpenEndsIsDecisive(gen: seq<Option<string>>, texts: seq<string>, script: seq<Event>, i: nat)
    requires IsCountdown(gen) && |gen| >= 3 && Targets(script, |texts|) && i < |script|
    ensures Ends(gen, Open(gen, texts), script, i) == Decisive(|gen| - 2, script, i)
  {
    if script[i].Tick? {
      assert script[..i + 1] == script[..i] + [script[i]];
      TicksSnoc(script[..i], script[i], script[i].window);
    }
  }

  /**
    `show_break` returns a value exactly when some event decides the
    occurrence, and then returns true iff the first deciding event is a space
    press (postpone): a skip or a window's expiry yields false.
  */
  lemma {:induction false} ResolveFirstDecisive(d: nat, texts: seq<string>, script: seq<Event>)
    requires d >= 1 && Targets(script, |texts|)
    ensures Resolve(d, texts, script).None? <==> forall i :: 0 <= i < |script| ==> !Decisive(d, script, i)
    ensures forall i ::
      (0 <= i < |script| && Decisive(d, script, i) && (forall j :: 0 <= j < i ==> !Decisive(d, script, j))) ==>
      Resolve(d, texts, script) == Some(script[i].Space?)
  {
    var gen := Timer(d);
    TimerIsCountdown(d);
    var s := Open(gen, texts);
    RunCharacterised(gen, s, script);
    forall i | 0 <= i < |script| ensures Ends(gen, s, script, i) == Decisive(d, script, i) {
      OpenEndsIsDecisive(gen, texts, script, i);
    }
  }

  // ---- Consequences ----

  lemma {:induction false} RunAppend(gen: seq<Option<string>>, s: Session, a: seq<Event>, b: seq<Event>)
    requires Valid(gen, s) && Targets(a, |s.windows|) && Targets(b, |s.windows|)
    ensures Targets(a + b, |s.windows|)
    ensures Run(gen, s, a + b) == Run(gen, Run(gen, s, a), b)
    decreases |a|
  {
    assert Targets(a + b, |s.windows|) by {
      forall i | 0 <= i < |a + b| ensures (a + b)[i].window < |s.windows| {
        if i < |a| { assert (a + b)[i] == a[i]; } else { assert (a + b)[i] == b[i - |a|]; }
      }
    }
    if a == [] {
      assert a + b == b;
    } else {
      assert (a + b)[0] == a[0];
      assert (a + b)[1..] == a[1..] + b;
      assert Targets(a[1..], |s.windows|) by {
        forall i | 0 <= i < |a[1..]| ensures a[1..][i].window < |s.windows| { assert a[1..][i] == a[i + 1]; }
      }
      RunAppend(gen, Step(gen, s, a[0]), a[1..], b);
    }
  }

  /** The first deciding event fixes the result: anything after it has no effect. */
  lemma {:induction false} LaterEventsIgnored(d: nat, texts: seq<string>, script: seq<Event>, later: seq<Event>)
    requires d >= 1 && Targets(script, |texts|) && Targets(later, |texts|)
    requires Resolve(d, texts, script).Some?
    ensures Targets(script + later, |texts|)
    ensures Resolve(d, texts, script + later) == Resolve(d, texts, script)
  {
    var gen := Timer(d);
    TimerIsCountdown(d);
    var s := Open(gen, texts);
    RunAppend(gen, s, script, later);
    RunStopped(gen, Run(gen, s, script), later);
  }

  /**
    Left alone, a window's generator is drawn once per timer callback: a script
    none of whose events decides the occurrence leaves every window open, its
    generator drawn twice at creation and once per callback so far.
  */
  lemma {:induction false} LabelsFollowCountdown(d: nat, texts: seq<string>, script: seq<Event>, w: nat)
    requires d >= 1 && Targets(script, |texts|) && w < |texts|
    requires forall i :: 0 <= i < |script| ==> !Decisive(d, script, i)
    ensures Resolve(d, texts, script) == None
    ensures var win := Run(Timer(d), Open(Timer(d), texts), script).windows[w];
      win.drawn == 2 + Ticks(script, w) && win.text == texts[w]
  {
    TimerIsCountdown(d);
    LabelsFollow(Timer(d), d, texts, script, w);
  }

  /** The same for any generator that hands out d + 2 values. */
  lemma {:induction false} LabelsFollow(gen: seq<Option<string>>, d: nat, texts: seq<string>, script: seq<Event>, w: nat)
    requires IsCountdown(gen) && |gen| == d + 2 && d >= 1 && Targets(script, |texts|) && w < |texts|
    requires forall i :: 0 <= i < |script| ==> !Decisive(d, script, i)
    ensures var t := Run(gen, Open(gen, texts), script);
      t.running && t.windows[w].drawn == 2 + Ticks(script, w) && t.windows[w].text == texts[w]
  {
    var s := Open(gen, texts);
    forall i | 0 <= i < |script| ensures !Ends(gen, s, script, i) {
      OpenEndsIsDecisive(gen, texts, script, i);
    }
    RunCharacterised(gen, s, script);
  }

  /**
    The timer label of a window counting down from d, after its generator has
    handed out `drawn` values, shows the `drawn`-th of them: the time left,
    d + 1 - drawn seconds, as minutes and seconds.
  */
  lemma {:induction false} TimeLeftShown(d: nat, win: Window)
    requires WindowValid(Timer(d), win)
    ensures win.timeLeft == FormatTime(d + 1 - win.drawn)
  {
    var gen, k, n := Timer(d), win.drawn - 1, d + 1 - win.drawn;
    TimerAt(d, k, n);
    SomeInjective(gen[k], win.timeLeft, FormatTime(n));
  }

  /** With no key pressed, window w's d-th timer callback ends the occurrence as not postponed. */
  lemma {:induction false} ExpiresAfterDuration(d: nat, texts: seq<string>, w: nat)
    requires d >= 1 && w < |texts|
    ensures Targets(seq(d, _ => Tick(w)), |texts|)
    ensures Resolve(d, texts, seq(d, _ => Tick(w))) == Some(false)
  {
    var script := seq(d, _ => Tick(w));
    forall i | 1 <= i <= d ensures Ticks(script[..i], w) == i {
      AllTicks(w, i);
      assert script[..i] == seq(i, _ => Tick(w));
    }
    ResolveFirstDecisive(d, texts, script);
    assert Decisive(d, script, d - 1);
  }

  lemma {:induction false} AllTicks(w: nat, n: nat)
    ensures Ticks(seq(n, _ => Tick(w)), w) == n
    decreases n
  {
    if n > 0 {
      assert seq(n, _ => Tick(w))[1..] == seq(n - 1, _ => Tick(w));
      AllTicks(w, n - 1);
    }
  }

  /**
    The space binding is installed whatever `postponeable` says, so the short
    break, which is not postponeable, is postponed by a space press all the same.
  */
  lemma {:induction false} ShortBreakPostponable(texts: seq<string>)
    requires |texts| > 0
    ensures !Breaks(Short).postponeable
    ensures Resolve(Breaks(Short).duration, texts, [Space(0)]) == Some(true)
  {
    ResolveFirstDecisive(Breaks(Short).duration, texts, [Space(0)]);
    assert Decisive(Breaks(Short).duration, [Space(0)], 0);
  }

  // ---- Message choice ----

  /**
    The package and src/eyesight_break.py draw one message before the monitor
    loop (`pick` stands for `random.choice`): every window shows that same
    message, taken from the kind's list.
  */
  function SessionTexts(kind: BreakKind, monitors: nat, pick: nat): (texts: seq<string>)
    requires pick < |Breaks(kind).messages|
    ensures |texts| == monitors
    ensures forall w :: 0 <= w < monitors ==> texts[w] in Breaks(kind).messages
    ensures forall w :: 0 <= w < monitors ==> texts[w] == Breaks(kind).messages[pick]
  {
    seq(monitors, _ => Breaks(kind).messages[pick])
  }

  /** eyesightbreak.py draws inside the monitor loop, one pick per monitor: each is still from the kind's list. */
  function LegacyTexts(kind: BreakKind, picks: seq<nat>): (texts: seq<string>)
    requires forall m :: 0 <= m < |picks| ==> picks[m] < |Breaks(kind).messages|
    ensures |texts| == |picks|
    ensures forall w :: 0 <= w < |texts| ==> texts[w] in Breaks(kind).messages
  {
    seq(|picks|, m requires 0 <= m < |picks| => Breaks(kind).messages[picks[m]])
  }

  // ---- show_break itself ----

  /**
    `root.mainloop()`: runs the callbacks of the events in order until one of
    them destroys `root`, updating the nonlocal `postponed` flag and the
    windows' generators as it goes.
  */
  method EventLoop(gen: seq<Option<string>>, windows: seq<Window>, script: seq<Event>) returns (ended: bool, postponed: bool)
    requires IsCountdown(gen) && Targets(script, |windows|)
    requires forall w :: 0 <= w < |windows| ==> WindowValid(gen, windows[w])
    ensures (if ended then Some(postponed) else None) == Outcome(Run(gen, Session(false, true, windows), script))
  {
    var running := true;
    postponed := false;
    var ws := windows;
    var i := 0;
    while i < |script| && running
      invariant 0 <= i <= |script|
      invariant |ws| == |windows| && Valid(gen, Session(postponed, running, ws))
      invariant Targets(script[i..], |ws|)
      invariant Run(gen, Session(postponed, running, ws), script[i..]) == Run(gen, Session(false, true, windows), script)
    {
      var e := script[i];
      assert script[i..][0] == e && script[i..][1..] == script[i + 1..];
      match e {
        case Escape(_) =>
          running := false;
        case Space(_) =>
          postponed := true;
          running := false;
        case Tick(w) =>
          var next := gen[ws[w].drawn];
          if next.None? {
            running := false;
          } else {
            ws := ws[w := ws[w].(drawn := ws[w].drawn + 1, timeLeft := next.value)];
          }
      }
      i := i + 1;
    }
    ended := !running;
  }

  /** The monitor loop of `show_break`: one window per monitor, all showing `message`. */
  method CreateWindows(gen: seq<Option<string>>, message: string, monitors: nat) returns (windows: seq<Window>)
    requires IsCountdown(gen) && |gen| >= 3
    ensures |windows| == monitors
    ensures forall w :: 0 <= w < monitors ==> windows[w] == CreateWindow(message, gen)
  {
    windows := [];
    for m := 0 to monitors
      invariant |windows| == m
      invariant forall w :: 0 <= w < m ==> windows[w] == CreateWindow(message, gen)
    {
      var win := CreateWindow(message, gen);
      forall w | 0 <= w <= m ensures (windows + [win])[w] == CreateWindow(message, gen) {
        SnocAt(windows, win, w);
      }
      windows := windows + [win];
    }
  }

  /** The monitor loop of the eyesightbreak.py `show_break`: each window draws its own message. */
  method CreateLegacyWindows(gen: seq<Option<string>>, kind: BreakKind, picks: seq<nat>) returns (windows: seq<Window>)
    requires IsCountdown(gen) && |gen| >= 3
    requires forall m :: 0 <= m < |picks| ==> picks[m] < |Breaks(kind).messages|
    ensures windows == Open(gen, LegacyTexts(kind, picks)).windows
  {
    ghost var texts := LegacyTexts(kind, picks);
    windows := [];
    for m := 0 to |picks|
      invariant |windows| == m
      invariant forall w :: 0 <= w < m ==> windows[w] == CreateWindow(texts[w], gen)
    {
      var message := Breaks(kind).messages[picks[m]];
      var win := CreateWindow(message, gen);
      forall w | 0 <= w <= m ensures (windows + [win])[w] == CreateWindow(texts[w], gen) {
        SnocAt(windows, win, w);
      }
      windows := windows + [win];
    }
    Extensional(windows, Open(gen, texts).windows);
  }

  /**
    `show_break(break_type)` of src/eyesight_break/gui.py and
    src/eyesight_break.py: one message for all monitors, then one window with
    its own `timer(duration)` generator per monitor, then the event loop.
  */
  method ShowBreak(kind: BreakKind, monitors: nat, pick: nat, script: seq<Event>) returns (ended: bool, postponed: bool)
    requires pick < |Breaks(kind).messages|
    requires Targets(script, monitors)
    ensures (if ended then Some(postponed) else None) ==
      Resolve(Breaks(kind).duration, SessionTexts(kind, monitors, pick), script)
  {
    var d := Breaks(kind).duration;
    var message := Breaks(kind).messages[pick];
    var gen := Timer(d);
    TimerIsCountdown(d);
    ghost var texts := SessionTexts(kind, monitors, pick);
    var windows := CreateWindows(gen, message, monitors);
    Extensional(windows, Open(gen, texts).windows);
    ended, postponed := EventLoop(gen, windows, script);
  }

  /** `show_break` of eyesightbreak.py: the same, except that each monitor's window draws its own message. */
  method LegacyShowBreak(kind: BreakKind, picks: seq<nat>, script: seq<Event>) returns (ended: bool, postponed: bool)
    requires forall m :: 0 <= m < |picks| ==> picks[m] < |Breaks(kind).messages|
    requires Targets(script, |picks|)
    ensures (if ended then Some(postponed) else None) ==
      Resolve(Breaks(kind).duration, LegacyTexts(kind, picks), script)
  {
    var d := Breaks(kind).duration;
    var gen := Timer(d);
    TimerIsCountdown(d);
    var windows := CreateLegacyWindows(gen, kind, picks);
    ended, postponed := EventLoop(gen, windows, script);
  }
}
