/**
 * The readings used by the examples in src/lib/domain/analytics.test.ts, with values
 * in tenths of mmol/L and instants as hours after 2024-01-10T00:00Z: the test's instants in
 * the same order, which is all the model reads of them.
 */
module Fixtures {
  import opened Wrappers
  import opened Domain

  /**
   * `{ ...mockReadings[0], id: "x", isFasting: false, isPostMeal: false, measuredAt: new Date() }`:
   * a reading with neither flag, taken at the instant `now`.
   */
  function Untyped(now: int): Reading {
    Reading("x", now, "2024-01-10", 55, false, false, None)
  }

  /** `badReadings`: `mockReadings` and the untyped reading. */
  function BadReadings(now: int): seq<Reading> {
    Mock() + [Untyped(now)]
  }

  /** The breakfast reading of `mockReadings`, 7.0 after "frokost". */
  function Breakfast(): Reading {
    Reading("2", 10, "2024-01-10", 70, false, true, Some("frokost"))
  }

  /** The lunch reading of `mockReadings`, 6.5 after "lunsj". */
  function Lunch(): Reading {
    Reading("4", 36, "2024-01-11", 65, false, true, Some("lunsj"))
  }

  /** `mockReadings`: a fasting and a post-meal reading on each of two days. */
  function Mock(): seq<Reading> {
    [ Reading("1", 8, "2024-01-10", 55, true, false, None),
      Breakfast(),
      Reading("3", 8, "2024-01-11", 50, true, false, None),
      Lunch() ]
  }

  /** `{ ...mockReadings[1], id, measuredAt }`: a copy of the breakfast reading. */
  function BreakfastCopy(id: string, measuredAt: int): Reading {
    Breakfast().(id := id, measuredAt := measuredAt)
  }

  /** `manyReadings`: `mockReadings` and two more copies of its breakfast reading. */
  function ManyBreakfasts(): seq<Reading> {
    Mock() + [BreakfastCopy("5", 34), BreakfastCopy("6", 58)]
  }

  /** Five copies of the first mock reading on consecutive days, 5.0 rising to 9.0. */
  function FiveDays(): seq<Reading> {
    [ Reading("0", 8, "2024-01-10", 50, true, false, None),
      Reading("1", 8, "2024-01-11", 60, true, false, None),
      Reading("2", 8, "2024-01-12", 70, true, false, None),
      Reading("3", 8, "2024-01-13", 80, true, false, None),
      Reading("4", 8, "2024-01-14", 90, true, false, None) ]
  }
}
