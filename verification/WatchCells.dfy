/** The atomics one call is watched through, and every operation on them that
    is atomic.

    `Cells` is the value the shared words hold together. Each function below
    is one atomic instruction of the watch, and the interleaving models are
    built out of these and nothing else. */
module WatchCells {
  import opened Wrappers

  datatype Limit = Memory | Wall | Cpu

  datatype Warning = NearCpu | NearMemory | NearWall | NearTermination

  /** The bit of the warned mask one warning owns. */
  function Bit(w: Warning): (b: bv8)
    ensures b != 0
  {
    match w
    case NearCpu => 1
    case NearMemory => 2
    case NearWall => 4
    case NearTermination => 8
  }

  predicate Warned(mask: bv8, w: Warning) {
    mask & Bit(w) != 0
  }

  /** `hit` is absent for the code that means nothing was reached. */
  datatype Cells = Cells(
    spent: nat, entered: nat, hit: Option<Limit>, warned: bv8,
    buffers: nat, collecting: bool, allowed: nat)

  // The clock cells.

  /** Zero means nothing is running, so a poll that starts in the first
      nanosecond says one instead. */
  function StoreEntered(c: Cells, now: nat): Cells {
    c.(entered := if now == 0 then 1 else now)
  }

  function SwapEntered(c: Cells): Cells {
    c.(entered := 0)
  }

  function AddSpent(c: Cells, amount: nat): Cells {
    c.(spent := c.spent + amount)
  }

  function ZeroSpent(c: Cells): Cells {
    c.(spent := 0)
  }

  // The limit and the warnings.

  /** One compare and exchange against the code for nothing. */
  function CasHit(c: Cells, what: Limit): Cells {
    if c.hit == None then c.(hit := Some(what)) else c
  }

  function OrWarned(c: Cells, w: Warning): Cells {
    c.(warned := c.warned | Bit(w))
  }

  function ZeroWarned(c: Cells): Cells {
    c.(warned := 0)
  }

  // The buffer count.

  function AddBuffers(c: Cells, len: nat): Cells {
    c.(buffers := c.buffers + len)
  }

  function SubBuffers(c: Cells, len: nat): Cells
    requires len <= c.buffers
  {
    c.(buffers := c.buffers - len)
  }

  lemma OwnBit(mask: bv8, b: bv8)
    requires b != 0
    ensures (mask | b) & b != 0
  {
    assert (mask | b) & b == b;
  }

  lemma OtherBit(mask: bv8, b: bv8, c: bv8)
    requires b & c == 0
    ensures (mask | b) & c == mask & c
  {
  }

  lemma BitsAreApart(w: Warning, v: Warning)
    requires v != w
    ensures Bit(w) & Bit(v) == 0
  {
  }

  /** Setting one warning's bit says that warning and no other, so the mask
      behaves as the set of the warnings already sent. */
  lemma OrSetsOneWarning(c: Cells, w: Warning)
    ensures forall v :: Warned(OrWarned(c, w).warned, v) <==> Warned(c.warned, v) || v == w
  {
    forall v
      ensures Warned(OrWarned(c, w).warned, v) <==> Warned(c.warned, v) || v == w
    {
      if v == w {
        OwnBit(c.warned, Bit(w));
      } else {
        BitsAreApart(w, v);
        OtherBit(c.warned, Bit(w), Bit(v));
      }
    }
  }

  /** The cells once the poll that is running, if one is, has ended. */
  function LeftAt(c: Cells, now: nat): Cells {
    if c.entered == 0 then c else AddSpent(SwapEntered(c), Monus(now, c.entered))
  }

  /** What one call may use: `memory` in bytes, the clocks in nanoseconds. */
  datatype Limits = Limits(memory: nat, wall: nat, cpu: nat, boot: nat, background: nat)

  /** The watch itself, run by one thread at a time. The clock is handed in. */
  class Watch {
    var spent: nat
    var entered: nat
    var hit: Option<Limit>
    var warned: bv8
    var buffers: nat
    var collecting: bool
    var allowed: nat
    const limits: Limits

    ghost function State(): Cells
      reads this
    {
      Cells(spent, entered, hit, warned, buffers, collecting, allowed)
    }

    /** An isolate begins by loading its modules, so it begins on the boot
        budget. */
    constructor (limits: Limits)
      ensures this.limits == limits
      ensures State() == Cells(0, 0, None, 0, 0, false, limits.boot)
    {
      this.limits := limits;
      spent, entered, hit, warned := 0, 0, None, 0;
      buffers, collecting, allowed := 0, false, limits.boot;
    }

    method Entered(now: nat)
      modifies this
      ensures State() == StoreEntered(old(State()), now)
      ensures entered > 0 && now <= entered <= now + 1 && (now > 0 ==> entered == now)
    {
      entered := if now == 0 then 1 else now;
    }

    /** A poll that started and ended moves its length into the total and
        leaves nothing running; ending nothing changes nothing. */
    method Left(now: nat)
      modifies this
      ensures State() == LeftAt(old(State()), now)
    {
      var started := entered;
      entered := 0;
      if started == 0 {
        return;
      }
      spent := spent + Monus(now, started);
    }

    /** The time read at an instant is what the total comes to if the poll that is
        running ends then, so it never goes back while the clock does not. */
    method CpuAt(now: nat) returns (time: nat)
      ensures time == LeftAt(State(), now).spent
      ensures forall later :: now <= later ==> time <= LeftAt(State(), later).spent
    {
      var loaded := spent;
      time := loaded;
      if entered != 0 {
        time := loaded + Monus(now, entered);
      }
    }

    /** A poll is counted once: what was read while it ran is what is read
        after it ended at that same instant. */
    method LeaveAndRead(now: nat) returns (before: nat, after: nat)
      modifies this
      ensures before == after
      ensures entered == 0 && spent == after
    {
      before := CpuAt(now);
      Left(now);
      after := CpuAt(now);
    }

    method Restart()
      modifies this
      ensures State() == ZeroWarned(SwapEntered(ZeroSpent(old(State())))).(allowed := limits.cpu)
    {
      allowed := limits.cpu;
      spent := 0;
      entered := 0;
      warned := 0;
    }

    method First(w: Warning) returns (first: bool)
      modifies this`warned
      ensures State() == OrWarned(old(State()), w)
      ensures first <==> !Warned(old(warned), w)
      ensures Warned(warned, w)
    {
      first := warned & Bit(w) == 0;
      ghost var before := State();
      warned := warned | Bit(w);
      OrSetsOneWarning(before, w);
    }

    method Record(what: Limit) returns (won: bool)
      modifies this`hit
      ensures State() == CasHit(old(State()), what)
      ensures won <==> old(hit) == None
      ensures hit != None
    {
      won := hit == None;
      if won {
        hit := Some(what);
      }
    }

    /** Takes `len` bytes out of the budget or refuses them. A refusal nets
        to nothing on the count and leaves a limit recorded. */
    method Take(len: nat) returns (granted: bool)
      modifies this`buffers, this`hit
      ensures granted <==> len <= limits.memory && old(buffers) + len <= 2 * limits.memory
      ensures granted ==> buffers == old(buffers) + len && hit == old(hit)
      ensures !granted ==> buffers == old(buffers) && hit != None
    {
      buffers := buffers + len;
      var held := buffers;
      if len > limits.memory || held > BURST * limits.memory {
        buffers := buffers - len;
        var _ := Record(Memory);
        return false;
      }
      return true;
    }
  }

  /** How far past the budget the allocator itself goes before it refuses. */
  const BURST := 2
}
