/**
 * The wall clock, abstracted as a tick counter. Every reading is strictly
 * later than every earlier reading, which is what the entity's timestamps
 * rely on.
 */
module Clocks {

  class Clock {
    /** The latest reading handed out so far. */
    var ticks: int

    constructor (start: int)
      ensures ticks == start
    {
      ticks := start;
    }

    /** Reads the clock: the answer is later than any earlier answer. */
    method Now() returns (t: int)
      modifies this
      ensures t == ticks && ticks == old(ticks) + 1
    {
      ticks := ticks + 1;
      t := ticks;
    }
  }
}
