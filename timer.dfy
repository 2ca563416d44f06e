/**
  The countdown of src/eyesight_break/timer.py: `format_time` renders a number
  of seconds as MM:SS, and the generator `timer(n)` yields the formatted
  values n, n-1, ..., 0 followed by one terminal `None`.
*/
module Countdown {
  import opened Wrappers
  import opened Decimal
  import opened SeqFacts

  /**
    `f'{seconds // 60:02}:{seconds % 60:02}'`. For a positive divisor Python's
    floor division and modulo coincide with Dafny's Euclidean `/` and `%`.
    Minutes are padded to at least two digits and never wrapped at 60.
  */
  function FormatTime(seconds: int): string {
    Pad2(seconds / 60) + ":" + Pad2(seconds % 60)
  }

  /**
    Reads back a value in the notation FormatTime produces for non-negative
    seconds: at least two minute digits, a colon, exactly two second digits
    below 60. Anything else is rejected.
  */
  function ParseTime(s: string): Option<nat> {
    if |s| < 5 || s[|s| - 3] != ':' then None
    else
      var minutes, secs := s[..|s| - 3], s[|s| - 2..];
      if !AllDigits(minutes) || !AllDigits(secs) || ParseDigits(secs) >= 60 then None
      else Some(ParseDigits(minutes) * 60 + ParseDigits(secs))
  }

  /**
    The pieces of FormatTime(x) for non-negative x: the minutes field, a colon
    three characters from the end, and a two-character seconds field, each
    field all digits and reading back as x / 60 and x % 60.
  */
  lemma {:induction false} FormatTimeFields(x: int)
    requires x >= 0
    ensures var s := FormatTime(x);
      |s| == |Pad2(x / 60)| + 3 && s[|s| - 3] == ':' &&
      s[..|s| - 3] == Pad2(x / 60) && s[|s| - 2..] == Pad2(x % 60) &&
      AllDigits(Pad2(x / 60)) && ParseDigits(Pad2(x / 60)) == x / 60 &&
      AllDigits(Pad2(x % 60)) && ParseDigits(Pad2(x % 60)) == x % 60 &&
      |Pad2(x / 60)| >= 2 && (|Pad2(x / 60)| == 2 <==> x / 60 < 100)
  {
    Pad2RoundTrip(x / 60);
    Pad2RoundTrip(x % 60);
    SplitAround(Pad2(x / 60), ':', Pad2(x % 60));
  }

  /** Round trip: the minutes and seconds read back from FormatTime(x) recombine to x. */
  lemma {:induction false} FormatTimeRoundTrip(x: int)
    requires x >= 0
    ensures ParseTime(FormatTime(x)) == Some(x)
  {
    FormatTimeFields(x);
  }

  lemma {:induction false} FormatTimeInjective(x: int, y: int)
    requires x >= 0 && y >= 0
    requires FormatTime(x) == FormatTime(y)
    ensures x == y
  {
    FormatTimeRoundTrip(x);
    FormatTimeRoundTrip(y);
  }

  /**
    Shape of the output for non-negative seconds: a colon three characters from
    the end, digits elsewhere, and exactly five characters precisely when the
    minutes fit in two digits (seconds < 6000).
  */
  lemma {:induction false} FormatTimeShape(x: int)
    requires x >= 0
    ensures var s := FormatTime(x);
      |s| >= 5 && s[|s| - 3] == ':' &&
      AllDigits(s[..|s| - 3]) && AllDigits(s[|s| - 2..]) &&
      (|s| == 5 <==> x < 6000)
  {
    FormatTimeFields(x);
  }

  lemma {:induction false} TwoDigits(n: nat)
    requires n < 100
    ensures Pad2(n) == [DigitChar(n / 10), DigitChar(n % 10)]
  {
    if n >= 10 {
      assert Digits(n) == Digits(n / 10) + [DigitChar(n % 10)];
    }
  }

  lemma {:induction false} FormatTimeExamples()
    ensures FormatTime(65) == "01:05"
    ensures FormatTime(0) == "00:00"
    ensures FormatTime(3599) == "59:59"
    ensures FormatTime(3600) == "60:00"
  {
    TwoDigits(0);
    TwoDigits(1);
    TwoDigits(5);
    TwoDigits(59);
    TwoDigits(60);
  }

  /**
    What a generator that yields `item(n)` for every n from `seconds` down to
    0, and then None, hands out, in order.
  */
  function Yields<T>(seconds: int, item: int -> T): (r: seq<Option<T>>)
    ensures |r| == if seconds < 0 then 1 else seconds + 2
    ensures r[|r| - 1] == None
    ensures forall i :: 0 <= i < |r| - 1 ==> r[i].Some?
    decreases if seconds < 0 then 0 else seconds + 1
  {
    if seconds < 0 then [None] else [Some(item(seconds))] + Yields(seconds - 1, item)
  }

  /** Item i, for i in 0..seconds, is the item of the count n = seconds - i. */
  lemma {:induction false} YieldsAt<T>(seconds: int, i: int, n: int, item: int -> T)
    requires 0 <= i <= seconds && n == seconds - i
    ensures Yields(seconds, item)[i] == Some(item(n))
    decreases i
  {
    if i > 0 {
      YieldsAt(seconds - 1, i - 1, n, item);
      ConsAt(Some(item(seconds)), Yields(seconds - 1, item), i);
    }
  }

  /**
    Everything the generator `timer(seconds)` yields, in order: the formatted
    value of every n from `seconds` down to 0, then the terminal None.
  */
  function Timer(seconds: int): seq<Option<string>> {
    Yields(seconds, FormatTime)
  }

  /** Item i of the countdown, for i in 0..seconds, is the formatted value n = seconds - i. */
  lemma {:induction false} TimerAt(seconds: int, i: int, n: int)
    requires 0 <= i <= seconds && n == seconds - i
    ensures Timer(seconds)[i] == Some(FormatTime(n))
  {
    YieldsAt(seconds, i, n, FormatTime);
  }

  /** `timer` itself: the `while n >= 0` loop decrementing n, then the final `yield None`. */
  method RunTimer(seconds: int) returns (yielded: seq<Option<string>>)
    ensures yielded == Timer(seconds)
  {
    var n := seconds;
    yielded := [];
    while n >= 0
      invariant if seconds < 0 then n == seconds else -1 <= n <= seconds
      invariant yielded + Timer(n) == Timer(seconds)
      decreases n + 1
    {
      AppendAssoc(yielded, [Some(FormatTime(n))], Timer(n - 1));
      yielded := yielded + [Some(FormatTime(n))];
      n := n - 1;
    }
    yielded := yielded + [None];
  }

  /**
    None occurs only as the last item. For seconds >= 0 the generator is exhausted
    exactly after `seconds + 1` values; for negative seconds None is the only item.
  */
  lemma {:induction false} TimerEnd(seconds: int, i: int)
    requires 0 <= i < |Timer(seconds)|
    ensures Timer(seconds)[i].None? <==> i == |Timer(seconds)| - 1
  {
  }

  /**
    A value yielded before the terminal None reads back as the seconds left:
    at position i it denotes `seconds - i`, so the values strictly decrease
    down to 0.
  */
  lemma {:induction false} TimerCountsDown(seconds: int, i: int, shown: string)
    requires 0 <= i <= seconds && Timer(seconds)[i] == Some(shown)
    ensures ParseTime(shown) == Some(seconds - i)
  {
    var n := seconds - i;
    TimerAt(seconds, i, n);
    SomeInjective(Timer(seconds)[i], shown, FormatTime(n));
    ReadBack(shown, n);
  }

  /** Of two values yielded before the terminal None, the later one reads back as fewer seconds. */
  lemma {:induction false} TimerDecreases(seconds: int, i: int, j: int, earlier: string, later: string)
    requires 0 <= i < j <= seconds
    requires Timer(seconds)[i] == Some(earlier) && Timer(seconds)[j] == Some(later)
    ensures ParseTime(earlier).Some? && ParseTime(later).Some?
    ensures ParseTime(later).value < ParseTime(earlier).value
  {
    TimerCountsDown(seconds, i, earlier);
    TimerCountsDown(seconds, j, later);
  }

  /**
    The round trip for a string already known to be `format_time(n)`. Callers use it to
    keep FormatTime applied to a plain variable in their proof goals, which the solver
    handles far more cheaply than FormatTime applied to a sequence element.
  */
  lemma {:induction false} ReadBack(s: string, n: int)
    requires n >= 0 && s == FormatTime(n)
    ensures ParseTime(s) == Some(n)
  {
    FormatTimeRoundTrip(n);
  }

  lemma {:induction false} TimerExample()
    ensures Timer(2) == [Some("00:02"), Some("00:01"), Some("00:00"), None]
  {
    var expected := [Some("00:02"), Some("00:01"), Some("00:00"), None];
    TwoDigits(0);
    TwoDigits(1);
    TwoDigits(2);
    TimerAt(2, 0, 2);
    TimerAt(2, 1, 1);
    TimerAt(2, 2, 0);
    assert FormatTime(2) == "00:02" && FormatTime(1) == "00:01" && FormatTime(0) == "00:00";
    Extensional(Timer(2), expected);
  }

  lemma {:induction false} TimerNegative(seconds: int)
    requires seconds < 0
    ensures Timer(seconds) == [None]
  {
  }
}
