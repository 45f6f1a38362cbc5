/** Finding the head of a chain without listing it: gallop, halve, and look back
    over a window. */
module ChainHead {

  /** How many windows a line can have in flight, so how far past a hole one it
      left behind can be. */
  const MAX_INFLIGHT: nat := 64

  /** Segments are there from the floor up to a first hole, and past the hole
      only where a line that stopped could have left one. */
  ghost predicate IsHole(present: nat -> bool, floor: nat, hole: nat) {
    && floor < hole && !present(hole)
    && (forall n :: floor < n < hole ==> present(n))
    && (forall n :: n > hole + MAX_INFLIGHT ==> !present(n))
  }

  /** Doubling steps from a position that is there to one that is not. */
  method Gallop(present: nat -> bool, from: nat, ghost beyond: nat) returns (lo: nat, hi: nat)
    requires present(from) && forall n :: n > beyond ==> !present(n)
    ensures from <= lo < hi && present(lo) && !present(hi)
  {
    lo := from;
    var step := 1;
    hi := lo + step;
    while present(hi)
      invariant from <= lo < hi == lo + step && step >= 1 && present(lo)
      decreases beyond - lo
    {
      lo := hi;
      step := step * 2;
      hi := lo + step;
    }
  }

  /** A position that is there with none right after it. */
  method Halve(present: nat -> bool, low: nat, high: nat) returns (lo: nat)
    requires low < high && present(low) && !present(high)
    ensures low <= lo < high && present(lo) && !present(lo + 1)
  {
    lo := low;
    var hi := high;
    while hi - lo > 1
      invariant low <= lo < hi <= high && present(lo) && !present(hi)
      decreases hi - lo
    {
      var mid := lo + (hi - lo) / 2;
      if present(mid) {
        lo := mid;
      } else {
        hi := mid;
      }
    }
  }

  /** The head is the segment before the first hole, stragglers past it or not. */
  method Head(present: nat -> bool, floor: nat, ghost hole: nat) returns (head: nat)
    requires IsHole(present, floor, hole)
    ensures head == hole - 1
  {
    if !present(floor + 1) {
      return floor;
    }
    var low, high := Gallop(present, floor + 1, hole + MAX_INFLIGHT);
    var lo := Halve(present, low, high);
    var base := if lo < MAX_INFLIGHT || lo - MAX_INFLIGHT < floor + 1 then floor + 1 else lo - MAX_INFLIGHT;
    var at := base;
    while at <= lo
      invariant base <= at <= lo + 1
      invariant forall n :: base <= n < at ==> present(n)
    {
      if !present(at) {
        return at - 1;
      }
      at := at + 1;
    }
    return lo;
  }
}
