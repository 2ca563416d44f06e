/**
  The break scheduler: the `while True` loop of src/eyesight_break/main.py and
  the module-level loops of src/eyesight_break.py and eyesightbreak.py. Each
  cycle chooses the break kind from `break_counter`, sleeps, (in the package
  and the monolithic script) sends the warning notification and sleeps the lead
  time, shows the break, and advances the counter unless the break was
  postponed. Sleeping, notifying and showing are recorded as actions in a
  trace; the outcome of each overlay session (the value `show_break` returns)
  is an input, one per cycle, so the infinite loop becomes a bounded run.
*/
module Scheduler {
  import opened Catalog
  import opened SeqFacts

  /** What one cycle asks of the outside world, in order. */
  datatype Action = Sleep(seconds: int) | Notify(kind: BreakKind) | Show(kind: BreakKind)

  /**
    The two shapes of the loop: the package and src/eyesight_break.py warn
    PREV_TIME seconds ahead; eyesightbreak.py sleeps the whole interval and
    sends nothing.
  */
  datatype Layout = WithNotice | Legacy

  /**
    `if break_counter % SHORTS_INTERVALS_PER_LONG and break_counter != 0`.
    The second conjunct is redundant: the long break is chosen exactly when
    the counter is not a multiple of the divisor.
  */
  function KindFor(counter: int): (kind: BreakKind)
    ensures kind == Long <==> counter % SHORTS_INTERVALS_PER_LONG != 0
  {
    if counter % SHORTS_INTERVALS_PER_LONG != 0 && counter != 0 then Long else Short
  }

  function NextCounter(counter: nat, postponed: bool): nat {
    if postponed then counter else counter + 1
  }

  function CycleActions(layout: Layout, kind: BreakKind): seq<Action> {
    match layout
    case WithNotice => [Sleep(INTERVAL_UNIT - PREV_TIME), Notify(kind), Sleep(PREV_TIME), Show(kind)]
    case Legacy => [Sleep(INTERVAL_UNIT), Show(kind)]
  }

  /** The counter after the cycles whose outcomes (postponed or not) are given. */
  function CounterAfter(counter: nat, outcomes: seq<bool>): nat
    decreases |outcomes|
  {
    if outcomes == [] then counter
    else CounterAfter(NextCounter(counter, outcomes[0]), outcomes[1..])
  }

  /** The kind shown in each of those cycles. */
  function Kinds(counter: nat, outcomes: seq<bool>): (kinds: seq<BreakKind>)
    ensures |kinds| == |outcomes|
    decreases |outcomes|
  {
    if outcomes == [] then []
    else [KindFor(counter)] + Kinds(NextCounter(counter, outcomes[0]), outcomes[1..])
  }

  /** The actions of consecutive cycles of the given kinds. */
  function Trace(layout: Layout, kinds: seq<BreakKind>): seq<Action>
    decreases |kinds|
  {
    if kinds == [] then [] else CycleActions(layout, kinds[0]) + Trace(layout, kinds[1..])
  }

  function SleepTotal(actions: seq<Action>): int
    decreases |actions|
  {
    if actions == [] then 0
    else (if actions[0].Sleep? then actions[0].seconds else 0) + SleepTotal(actions[1..])
  }

  /** The number of cycles that were not postponed. */
  function Consumed(outcomes: seq<bool>): (n: nat)
    ensures n <= |outcomes|
    decreases |outcomes|
  {
    if outcomes == [] then 0 else (if outcomes[0] then 0 else 1) + Consumed(outcomes[1..])
  }

  // ---- Step lemmas used by the loops ----

  lemma {:induction false} CounterAfterSnoc(counter: nat, outcomes: seq<bool>, o: bool)
    ensures CounterAfter(counter, outcomes + [o]) == NextCounter(CounterAfter(counter, outcomes), o)
    decreases |outcomes|
  {
    if outcomes != [] {
      assert (outcomes + [o])[1..] == outcomes[1..] + [o];
      CounterAfterSnoc(NextCounter(counter, outcomes[0]), outcomes[1..], o);
    }
  }

  lemma {:induction false} KindsSnoc(counter: nat, outcomes: seq<bool>, o: bool)
    ensures Kinds(counter, outcomes + [o]) == Kinds(counter, outcomes) + [KindFor(CounterAfter(counter, outcomes))]
    decreases |outcomes|
  {
    if outcomes == [] {
      assert outcomes + [o] == [o];
    } else {
      var next := NextCounter(counter, outcomes[0]);
      assert (outcomes + [o])[1..] == outcomes[1..] + [o];
      KindsSnoc(next, outcomes[1..], o);
      AppendAssoc([KindFor(counter)], Kinds(next, outcomes[1..]), [KindFor(CounterAfter(next, outcomes[1..]))]);
    }
  }

  lemma {:induction false} TraceSnoc(layout: Layout, kinds: seq<BreakKind>, k: BreakKind)
    ensures Trace(layout, kinds + [k]) == Trace(layout, kinds) + CycleActions(layout, k)
    decreases |kinds|
  {
    if kinds == [] {
      assert kinds + [k] == [k];
    } else {
      assert (kinds + [k])[1..] == kinds[1..] + [k];
      TraceSnoc(layout, kinds[1..], k);
      AppendAssoc(CycleActions(layout, kinds[0]), Trace(layout, kinds[1..]), CycleActions(layout, k));
    }
  }

  /** One more cycle: the counter advances by its outcome and the trace grows by that cycle's actions. */
  lemma {:induction false} CycleSnoc(layout: Layout, counter: nat, outcomes: seq<bool>, o: bool)
    ensures CounterAfter(counter, outcomes + [o]) == NextCounter(CounterAfter(counter, outcomes), o)
    ensures Trace(layout, Kinds(counter, outcomes + [o])) ==
      Trace(layout, Kinds(counter, outcomes)) + CycleActions(layout, KindFor(CounterAfter(counter, outcomes)))
  {
    CounterAfterSnoc(counter, outcomes, o);
    KindsSnoc(counter, outcomes, o);
    TraceSnoc(layout, Kinds(counter, outcomes), KindFor(CounterAfter(counter, outcomes)));
  }

  // ---- Properties of the schedule ----

  /** The counter grows by one per non-postponed cycle, so it never decreases. */
  lemma {:induction false} CounterCountsConsumed(counter: nat, outcomes: seq<bool>)
    ensures CounterAfter(counter, outcomes) == counter + Consumed(outcomes)
    ensures CounterAfter(counter, outcomes) >= counter
    decreases |outcomes|
  {
    if outcomes != [] {
      CounterCountsConsumed(NextCounter(counter, outcomes[0]), outcomes[1..]);
    }
  }

  /** Cycle i shows the kind chosen from the counter left by the first i cycles. */
  lemma {:induction false} KindsAt(counter: nat, outcomes: seq<bool>, i: nat)
    requires i < |outcomes|
    ensures Kinds(counter, outcomes)[i] == KindFor(CounterAfter(counter, outcomes[..i]))
    decreases i
  {
    if i > 0 {
      var next := NextCounter(counter, outcomes[0]);
      KindsAt(next, outcomes[1..], i - 1);
      assert outcomes[1..][..i - 1] == outcomes[..i][1..];
      ConsAt(KindFor(counter), Kinds(next, outcomes[1..]), i);
    }
  }

  /**
    A postponed cycle leaves the counter unchanged, so the next cycle shows the
    same kind again; a cycle that is not postponed advances the counter by one.
  */
  lemma {:induction false} PostponedRepeatsKind(counter: nat, outcomes: seq<bool>, i: nat)
    requires i + 1 < |outcomes|
    ensures CounterAfter(counter, outcomes[..i + 1]) ==
      CounterAfter(counter, outcomes[..i]) + (if outcomes[i] then 0 else 1)
    ensures outcomes[i] ==> Kinds(counter, outcomes)[i + 1] == Kinds(counter, outcomes)[i]
  {
    assert outcomes[..i + 1] == outcomes[..i] + [outcomes[i]];
    CounterAfterSnoc(counter, outcomes[..i], outcomes[i]);
    KindsAt(counter, outcomes, i);
    KindsAt(counter, outcomes, i + 1);
  }

  /** Without postponements, starting from 0, the kinds run SHORT, LONG, LONG, SHORT, LONG, LONG, ... */
  lemma {:induction false} UninterruptedCadence(outcomes: seq<bool>, i: nat)
    requires forall j :: 0 <= j < |outcomes| ==> !outcomes[j]
    requires i < |outcomes|
    ensures Kinds(0, outcomes)[i] == if i % 3 == 0 then Short else Long
  {
    KindsAt(0, outcomes, i);
    CounterCountsConsumed(0, outcomes[..i]);
    NoneConsumedAll(outcomes[..i]);
  }

  lemma {:induction false} NoneConsumedAll(outcomes: seq<bool>)
    requires forall j :: 0 <= j < |outcomes| ==> !outcomes[j]
    ensures Consumed(outcomes) == |outcomes|
    decreases |outcomes|
  {
    if outcomes != [] {
      NoneConsumedAll(outcomes[1..]);
    }
  }

  /**
    Every cycle sleeps INTERVAL_UNIT seconds in total whatever its kind: the
    kind's own `interval` (1800 for the long break) is never consulted.
  */
  lemma {:induction false} CycleSleepIgnoresKind(layout: Layout, kind: BreakKind)
    ensures SleepTotal(CycleActions(layout, kind)) == INTERVAL_UNIT
    ensures SleepTotal(CycleActions(layout, Long)) != Breaks(Long).interval
  {
    CycleSleep(layout, kind);
    CycleSleep(layout, Long);
  }

  lemma {:induction false} CycleSleep(layout: Layout, kind: BreakKind)
    ensures SleepTotal(CycleActions(layout, kind)) == INTERVAL_UNIT
  {
    var a := CycleActions(layout, kind);
    if layout.WithNotice? {
      assert a[1..][1..][1..][1..] == [];
      assert SleepTotal(a[1..][1..][1..]) == 0;
      assert SleepTotal(a[1..][1..]) == PREV_TIME;
    } else {
      assert a[1..][1..] == [];
      assert SleepTotal(a[1..]) == 0;
    }
  }

  lemma {:induction false} SleepTotalAppend(a: seq<Action>, b: seq<Action>)
    ensures SleepTotal(a + b) == SleepTotal(a) + SleepTotal(b)
    decreases |a|
  {
    if a == [] {
      assert a + b == b;
    } else {
      assert (a + b)[0] == a[0];
      assert (a + b)[1..] == a[1..] + b;
      SleepTotalAppend(a[1..], b);
    }
  }

  /** A run of n cycles sleeps exactly n * INTERVAL_UNIT seconds. */
  lemma {:induction false} TraceSleepTotal(layout: Layout, kinds: seq<BreakKind>)
    ensures SleepTotal(Trace(layout, kinds)) == INTERVAL_UNIT * |kinds|
    decreases |kinds|
  {
    if kinds != [] {
      SleepTotalAppend(CycleActions(layout, kinds[0]), Trace(layout, kinds[1..]));
      CycleSleepIgnoresKind(layout, kinds[0]);
      TraceSleepTotal(layout, kinds[1..]);
    }
  }

  /** The older script never sends a notification; the others send one per cycle, for the kind about to be shown. */
  lemma {:induction false} NotificationsPerLayout(layout: Layout, kinds: seq<BreakKind>, i: nat)
    requires i < |Trace(layout, kinds)|
    ensures layout == Legacy ==> !Trace(layout, kinds)[i].Notify?
    ensures Trace(layout, kinds)[i].Notify? ==>
      (i + 2 < |Trace(layout, kinds)| &&
       Trace(layout, kinds)[i + 1] == Sleep(PREV_TIME) &&
       Trace(layout, kinds)[i + 2] == Show(Trace(layout, kinds)[i].kind))
    decreases |kinds|
  {
    var c := CycleActions(layout, kinds[0]);
    var rest := Trace(layout, kinds[1..]);
    assert Trace(layout, kinds) == c + rest;
    if i >= |c| {
      NotificationsPerLayout(layout, kinds[1..], i - |c|);
    }
  }

  // ---- The loops ----

  /**
    `main()` of src/eyesight_break/main.py: `break_counter` is a local that
    starts at 0; `outcomes[c]` is what `show_break` returned in cycle c.
  */
  method MainLoop(outcomes: seq<bool>) returns (breakCounter: nat, trace: seq<Action>)
    ensures breakCounter == CounterAfter(0, outcomes)
    ensures trace == Trace(WithNotice, Kinds(0, outcomes))
  {
    breakCounter := 0;
    trace := [];
    var cycle := 0;
    while cycle < |outcomes|
      invariant 0 <= cycle <= |outcomes|
      invariant breakCounter == CounterAfter(0, outcomes[..cycle])
      invariant trace == Trace(WithNotice, Kinds(0, outcomes[..cycle]))
    {
      ghost var prefix, before := outcomes[..cycle], trace;
      var kind := Short;
      if breakCounter % SHORTS_INTERVALS_PER_LONG != 0 && breakCounter != 0 {
        kind := Long;
      }
      assert kind == KindFor(CounterAfter(0, prefix));
      trace := trace + [Sleep(INTERVAL_UNIT - PREV_TIME)];
      trace := trace + [Notify(kind)];
      trace := trace + [Sleep(PREV_TIME)];
      trace := trace + [Show(kind)];
      assert trace == before + CycleActions(WithNotice, kind);
      var postponed := outcomes[cycle];
      if !postponed {
        breakCounter := breakCounter + 1;
      }
      assert outcomes[..cycle + 1] == prefix + [outcomes[cycle]];
      CycleSnoc(WithNotice, 0, prefix, outcomes[cycle]);
      cycle := cycle + 1;
    }
    assert outcomes[..cycle] == outcomes;
  }

  /**
    The module-level loops of src/eyesight_break.py (layout WithNotice) and of
    eyesightbreak.py (layout Legacy), whose `break_counter` is a global.
  */
  class ScriptLoop {
    const layout: Layout
    var breakCounter: nat
    var trace: seq<Action>

    /**
      Module start-up. eyesightbreak.py first shows one SHORT break and
      discards its result, so the counter is 0 however that break ended.
    */
    constructor (layout: Layout)
      ensures this.layout == layout && breakCounter == 0
      ensures trace == if layout == Legacy then [Show(Short)] else []
    {
      this.layout := layout;
      trace := if layout == Legacy then [Show(Short)] else [];
      breakCounter := 0;
    }

    /** One pass of the loop body; `postponed` is what `show_break(kind)` returned. */
    method Cycle(postponed: bool) returns (kind: BreakKind)
      modifies this
      ensures kind == KindFor(old(breakCounter))
      ensures breakCounter == NextCounter(old(breakCounter), postponed)
      ensures trace == old(trace) + CycleActions(layout, kind)
    {
      kind := Short;
      if breakCounter % SHORTS_INTERVALS_PER_LONG != 0 && breakCounter != 0 {
        kind := Long;
      }
      if layout == WithNotice {
        trace := trace + [Sleep(INTERVAL_UNIT - PREV_TIME), Notify(kind), Sleep(PREV_TIME)];
      } else {
        trace := trace + [Sleep(INTERVAL_UNIT)];
      }
      trace := trace + [Show(kind)];
      if !postponed {
        breakCounter := breakCounter + 1;
      }
    }

    /** As many passes as there are outcomes. */
    method Run(outcomes: seq<bool>)
      modifies this
      ensures breakCounter == CounterAfter(old(breakCounter), outcomes)
      ensures trace == old(trace) + Trace(layout, Kinds(old(breakCounter), outcomes))
    {
      var cycle := 0;
      while cycle < |outcomes|
        invariant 0 <= cycle <= |outcomes|
        invariant breakCounter == CounterAfter(old(breakCounter), outcomes[..cycle])
        invariant trace == old(trace) + Trace(layout, Kinds(old(breakCounter), outcomes[..cycle]))
      {
        var prefix := outcomes[..cycle];
        var kind := Cycle(outcomes[cycle]);
        assert outcomes[..cycle + 1] == prefix + [outcomes[cycle]];
        CycleSnoc(layout, old(breakCounter), prefix, outcomes[cycle]);
        AppendAssoc(old(trace), Trace(layout, Kinds(old(breakCounter), prefix)), CycleActions(layout, kind));
        cycle := cycle + 1;
      }
      assert outcomes[..cycle] == outcomes;
    }
  }
}
