/** A single board cell with the two-phase update of the Life step: the
    evaluation phase records whether the cell must flip, the commit phase
    applies the flip. */
module Cells {
  import opened Rules

  class Cell {
    var alive: bool
    /** Set by ProcessNb, consumed by Step. */
    var shouldChange: bool

    constructor (alive: bool := false)
      ensures this.alive == alive && !shouldChange
    {
      this.alive := alive;
      shouldChange := false;
    }

    /** Flips the alive flag; the pending change is left as it is. */
    method Toggle()
      modifies this`alive
      ensures alive == !old(alive)
    {
      alive := !alive;
    }

    /** Commit phase: a pending change flips the cell and is cleared. */
    method Step()
      modifies this
      ensures alive == (old(alive) != old(shouldChange))
      ensures !shouldChange
    {
      if shouldChange {
        shouldChange := false;
        Toggle();
      }
    }

    /** Evaluation phase, given the flags of the cell's neighbours: a live
        cell must change unless 2 or 3 neighbours live, a dead cell must
        change exactly when 3 live. The alive flag is not touched, and the
        pending change is exactly what makes the commit phase produce the
        B3/S23 value. */
    method ProcessNb(nb: seq<bool>)
      modifies this`shouldChange
      ensures alive ==> (shouldChange <==> CountTrue(nb) != 2 && CountTrue(nb) != 3)
      ensures !alive ==> (shouldChange <==> CountTrue(nb) == 3)
      ensures (alive != shouldChange) == NextAlive(alive, CountTrue(nb))
    {
      if alive {
        shouldChange := true;
        var live := CountTrue(nb);
        if live == 2 || live == 3 {
          shouldChange := false;
        }
      } else {
        shouldChange := false;
        if CountTrue(nb) == 3 {
          shouldChange := true;
        }
      }
    }
  }
}
