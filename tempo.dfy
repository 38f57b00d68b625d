/** The frame-rate divider of the main loop: a period d and a countdown c.
    The loop lets one simulation step through whenever the countdown has
    gone below zero, reloads it from the period, and counts it down once
    per frame. */
module Tempo {

  /** A period after an adjustment: never below zero. */
  function ClampPeriod(v: int): (r: int)
    ensures r >= 0 && r >= v
    ensures r == 0 || r == v
  {
    if v < 0 then 0 else v
  }

  class Dif {
    /** Period: the number of frames skipped between two steps. */
    var d: int
    /** Countdown to the next step. */
    var c: int

    constructor (d: int := 60)
      ensures this.d == d && c == d
    {
      this.d := d;
      c := d;
    }

    /** Adjusts the period by val, clamping it at zero; the countdown is
        left running. */
    method IncD(val: int)
      modifies this`d
      ensures d >= 0
      ensures d == ClampPeriod(old(d) + val)
    {
      d := d + val;
      d := if 0 > d then 0 else d;
    }

    /** Reloads the countdown from the period. */
    method Reset()
      modifies this`c
      ensures c == d
    {
      c := d;
    }

    /** Counts down by one frame. */
    method Woop()
      modifies this`c
      ensures c == old(c) - 1
    {
      c := c - 1;
    }

    /** Compares the countdown with a bound (the loop asks for c < 0). */
    method Lt(other: int) returns (below: bool)
      ensures below <==> c < other
    {
      below := c < other;
    }
  }
}
