/**
  The break catalog of src/eyesight_break/config.py: the two break kinds, their
  fixed configuration records, and the scheduling constants.
*/
module Catalog {

  /** `BreakType`: exactly two members. */
  datatype BreakKind = Short | Long

  /** The enum member's `.value`. */
  function Value(kind: BreakKind): string {
    match kind
    case Short => "short"
    case Long => "long"
  }

  /** `BreakConfig`: a record of four fields assigned once in `__init__` and never changed. */
  datatype BreakConfig = BreakConfig(duration: int, interval: int, postponeable: bool, messages: seq<string>)

  /** Seconds between two breaks (`60 * 10`). */
  const INTERVAL_UNIT: int := 60 * 10

  /** The cadence divisor used when choosing the long break. */
  const SHORTS_INTERVALS_PER_LONG: int := 3

  /** Seconds before a break at which the warning notification is sent. */
  const PREV_TIME: int := 7

  const SHORT_MESSAGES: seq<string> := [
    "Tightly close your eyes",
    "Roll your eyes a few times to each side",
    "Rotate your eyes in clockwise direction",
    "Rotate your eyes in counterclockwise direction",
    "Blink your eyes",
    "Focus on a point in the far distance",
    "Have some water"
  ]

  const LONG_MESSAGES: seq<string> := [
    "Walk for a while",
    "Lean back at your seat and relax"
  ]

  /**
    `BREAKS[kind]`. Every entry is a break shorter than its own recurrence, has
    at least one message to pick from, and its recurrence exceeds the lead time
    of the warning notification.
  */
  function Breaks(kind: BreakKind): (c: BreakConfig)
    ensures 0 < c.duration < c.interval
    ensures |c.messages| > 0
    ensures 0 < PREV_TIME < c.interval
  {
    match kind
    case Short => BreakConfig(20, INTERVAL_UNIT, false, SHORT_MESSAGES)
    case Long => BreakConfig(180, INTERVAL_UNIT * SHORTS_INTERVALS_PER_LONG, true, LONG_MESSAGES)
  }

  /** The enum values are 'short' and 'long', and they tell the two kinds apart. */
  lemma {:induction false} ValuesDistinct(a: BreakKind, b: BreakKind)
    ensures Value(a) == Value(b) <==> a == b
    ensures Value(Short) == "short" && Value(Long) == "long"
  {
    if a != b {
      assert Value(a)[0] != Value(b)[0];
    }
  }

  /** The catalog's fixed content. */
  lemma {:induction false} CatalogContents()
    ensures Breaks(Short).duration == 20 && Breaks(Short).interval == 600
    ensures !Breaks(Short).postponeable && |Breaks(Short).messages| == 7
    ensures Breaks(Long).duration == 180 && Breaks(Long).interval == 1800
    ensures Breaks(Long).postponeable && |Breaks(Long).messages| == 2
  {
  }

  /** The long break recurs SHORTS_INTERVALS_PER_LONG short intervals apart. */
  lemma {:induction false} LongIntervalIsMultiple()
    ensures Breaks(Long).interval == SHORTS_INTERVALS_PER_LONG * Breaks(Short).interval
    ensures Breaks(Short).interval == INTERVAL_UNIT
  {
  }

  /** The first sleep of a scheduler cycle, INTERVAL_UNIT - PREV_TIME, is positive. */
  lemma {:induction false} LeadTimeFitsInterval()
    ensures 0 < PREV_TIME < INTERVAL_UNIT
    ensures INTERVAL_UNIT - PREV_TIME > 0
  {
  }
}
