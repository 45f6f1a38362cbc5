/** Names on the wire, as sections 3.1 and 4.1.4 of RFC 1035 lay them out.

    A name is labels with their lengths in front, ended by a zero or by a
    pointer to where the rest of it was already written. `Spelling` is one way
    of laying a name out; `Spelled` says that a packet holds that layout at an
    offset, and `Descending` adds what this reader asks of the pointers. */
module DnsNames {
  import opened Wrappers

  type Label = seq<byte>

  datatype Spelling =
    | End
    | Labelled(text: Label, rest: Spelling)
    | Pointing(to: nat, rest: Spelling)

  const MAX_LABEL := 63
  const MAX_NAME := 253
  const DOT: byte := 46

  /** A length byte is a pointer's first byte, and where that pointer goes. */
  predicate IsPointer(b: byte) {
    b >= 0xc0
  }

  function Target(high: byte, low: byte): nat
    requires IsPointer(high)
  {
    (high - 0xc0) * 256 + low
  }

  /** The masks and shifts of the wire format are these comparisons and this
      arithmetic. */
  lemma MasksAreRanges(high: bv16, low: bv16)
    requires high < 256 && low < 256
    ensures high & 0xc0 == 0xc0 <==> high >= 0xc0
    ensures high & 0xc0 != 0 <==> high >= 0x40
    ensures high >= 0xc0 ==> ((high & 0x3f) << 8) | low == (high - 0xc0) * 256 + low
  {
  }

  /** Two bytes as one number, the high one first. */
  function Big(high: byte, low: byte): nat {
    high as int * 256 + low
  }

  // What a packet says.

  /** The packet holds this layout at this offset. */
  ghost predicate Spelled(p: seq<byte>, at: nat, s: Spelling)
    decreases s
  {
    match s
    case End => at < |p| && p[at] == 0
    case Labelled(text, rest) =>
      && 1 <= |text| <= MAX_LABEL
      && at + 1 + |text| <= |p|
      && p[at] == |text|
      && p[at + 1..at + 1 + |text|] == text
      && Spelled(p, at + 1 + |text|, rest)
    case Pointing(to, rest) =>
      && at + 1 < |p|
      && IsPointer(p[at])
      && Target(p[at], p[at + 1]) == to
      && Spelled(p, to, rest)
  }

  /** Every pointer lands before the last place that was jumped to. */
  ghost predicate Descending(s: Spelling, bound: nat) {
    match s
    case End => true
    case Labelled(_, rest) => Descending(rest, bound)
    case Pointing(to, rest) => to < bound && Descending(rest, to)
  }

  function LabelsOf(s: Spelling): seq<Label> {
    match s
    case End => []
    case Labelled(text, rest) => [text] + LabelsOf(rest)
    case Pointing(_, rest) => LabelsOf(rest)
  }

  /** How many bytes a layout takes where it begins, which is as far as its
      first pointer. */
  function Extent(s: Spelling): nat {
    match s
    case End => 1
    case Labelled(text, rest) => 1 + |text| + Extent(rest)
    case Pointing(_, _) => 2
  }

  // Reading.

  /** The layout at an offset whose jumps stay below `bound`. */
  ghost function ReadAt(p: seq<byte>, at: nat, bound: nat): Option<Spelling>
    decreases bound, |p| - at
  {
    if at >= |p| then None
    else if IsPointer(p[at]) then
      if at + 1 >= |p| || Target(p[at], p[at + 1]) >= bound then None
      else var to := Target(p[at], p[at + 1]);
           match ReadAt(p, to, to)
           case None => None
           case Some(rest) => Some(Pointing(to, rest))
    else if p[at] > MAX_LABEL then None
    else if p[at] == 0 then Some(End)
    else
      var next := at + 1 + p[at];
      if next > |p| then None
      else match ReadAt(p, next, bound)
           case None => None
           case Some(rest) => Some(Labelled(p[at + 1..next], rest))
  }

  lemma {:induction false} ReadIsSound(p: seq<byte>, at: nat, bound: nat)
    ensures match ReadAt(p, at, bound)
            case None => true
            case Some(s) => Spelled(p, at, s) && Descending(s, bound)
    decreases bound, |p| - at
  {
    if at < |p| && ReadAt(p, at, bound).Some? {
      if IsPointer(p[at]) {
        var to := Target(p[at], p[at + 1]);
        ReadIsSound(p, to, to);
      } else if p[at] != 0 {
        ReadIsSound(p, at + 1 + p[at], bound);
      }
    }
  }

  lemma {:induction false} ReadIsComplete(p: seq<byte>, at: nat, bound: nat, s: Spelling)
    requires Spelled(p, at, s) && Descending(s, bound)
    ensures ReadAt(p, at, bound) == Some(s)
    decreases s
  {
    match s {
      case End =>
      case Labelled(text, rest) => ReadIsComplete(p, at + 1 + |text|, bound, rest);
      case Pointing(to, rest) => ReadIsComplete(p, to, to, rest);
    }
  }

  /** Reading answers a layout exactly when the packet holds it at that offset
      with descending pointers, so there is never more than one. */
  lemma ReadIsExact(p: seq<byte>, at: nat, bound: nat, s: Spelling)
    ensures ReadAt(p, at, bound) == Some(s) <==> Spelled(p, at, s) && Descending(s, bound)
  {
    ReadIsSound(p, at, bound);
    if Spelled(p, at, s) && Descending(s, bound) {
      ReadIsComplete(p, at, bound, s);
    }
  }

  /** Partway through the name at `start`: these labels are behind, the rest is
      read at `here` with jumps below `furthest`, and `after` is where the
      cursor goes once a jump has been taken. */
  ghost predicate Midway(p: seq<byte>, start: nat, labels: seq<Label>, here: nat, furthest: nat, after: Option<nat>) {
    match (ReadAt(p, start, start), ReadAt(p, here, furthest))
    case (None, None) => true
    case (Some(whole), Some(rest)) =>
      && LabelsOf(whole) == labels + LabelsOf(rest)
      && start + Extent(whole) == (if after.Some? then after.value else here + Extent(rest))
    case _ => false
  }

  lemma MidwayLabel(p: seq<byte>, start: nat, labels: seq<Label>, here: nat, furthest: nat, after: Option<nat>)
    requires Midway(p, start, labels, here, furthest, after)
    requires here < |p| && 1 <= p[here] <= MAX_LABEL && here + 1 + p[here] <= |p|
    ensures var next := here + 1 + p[here];
            Midway(p, start, labels + [p[here + 1..next]], next, furthest, after)
  {
  }

  lemma MidwayJump(p: seq<byte>, start: nat, labels: seq<Label>, here: nat, furthest: nat, after: Option<nat>)
    requires Midway(p, start, labels, here, furthest, after)
    requires here + 1 < |p| && IsPointer(p[here]) && Target(p[here], p[here + 1]) < furthest
    ensures var to := Target(p[here], p[here + 1]);
            Midway(p, start, labels, to, to, if after.Some? then after else Some(here + 2))
  {
  }

  lemma MidwayEnd(p: seq<byte>, start: nat, labels: seq<Label>, here: nat, furthest: nat, after: Option<nat>)
    requires Midway(p, start, labels, here, furthest, after)
    requires here < |p| && p[here] == 0
    ensures ReadAt(p, start, start).Some? && LabelsOf(ReadAt(p, start, start).value) == labels
    ensures start + Extent(ReadAt(p, start, start).value) == if after.Some? then after.value else here + 1
    ensures start + Extent(ReadAt(p, start, start).value) <= |p|
  {
    ReadIsSound(p, start, start);
    ExtentWithin(p, start, ReadAt(p, start, start).value);
  }

  lemma MidwayStuck(p: seq<byte>, start: nat, labels: seq<Label>, here: nat, furthest: nat, after: Option<nat>)
    requires Midway(p, start, labels, here, furthest, after)
    requires ReadAt(p, here, furthest).None?
    ensures ReadAt(p, start, start).None?
  {
  }

  /** Where one turn of the loop leaves a name being read: nowhere, whole with
      the cursor to be, or further on. */
  datatype Turn =
    | Stuck
    | Ended(name: seq<Label>, past: nat)
    | Onward(labels: seq<Label>, here: nat, furthest: nat, after: Option<nat>)

  ghost predicate EndsAs(p: seq<byte>, start: nat, name: seq<Label>, past: nat) {
    var s := ReadAt(p, start, start);
    s.Some? && LabelsOf(s.value) == name && start + Extent(s.value) == past <= |p|
  }

  /** One length byte: a pointer below the last jump, the end, or a label. */
  method Turned(p: seq<byte>, ghost start: nat, labels: seq<Label>, here: nat, furthest: nat, after: Option<nat>)
    returns (t: Turn)
    requires Midway(p, start, labels, here, furthest, after)
    ensures t.Stuck? ==> ReadAt(p, start, start).None?
    ensures t.Ended? ==> EndsAs(p, start, t.name, t.past)
    ensures t.Onward? ==>
              && Midway(p, start, t.labels, t.here, t.furthest, t.after)
              && (t.furthest < furthest || (t.furthest == furthest && here < t.here <= |p|))
  {
    if here >= |p| {
      MidwayStuck(p, start, labels, here, furthest, after);
      return Stuck;
    }
    var size := p[here];
    if IsPointer(size) {
      if here + 1 >= |p| || Target(size, p[here + 1]) >= furthest {
        MidwayStuck(p, start, labels, here, furthest, after);
        return Stuck;
      }
      MidwayJump(p, start, labels, here, furthest, after);
      var to := Target(size, p[here + 1]);
      return Onward(labels, to, to, if after.Some? then after else Some(here + 2));
    }
    if size > MAX_LABEL || here + 1 + size > |p| {
      MidwayStuck(p, start, labels, here, furthest, after);
      return Stuck;
    }
    if size == 0 {
      MidwayEnd(p, start, labels, here, furthest, after);
      return Ended(labels, if after.Some? then after.value else here + 1);
    }
    MidwayLabel(p, start, labels, here, furthest, after);
    return Onward(labels + [p[here + 1..here + 1 + size]], here + 1 + size, furthest, after);
  }

  /** Somewhere to read a packet from, and how far into it we are. */
  class Reading {
    const packet: seq<byte>
    var at: nat

    constructor (packet: seq<byte>, at: nat)
      ensures this.packet == packet && this.at == at
    {
      this.packet := packet;
      this.at := at;
    }

    method Byte() returns (r: Option<byte>)
      modifies this
      ensures r == if old(at) < |packet| then Some(packet[old(at)]) else None
      ensures at == if r.Some? then old(at) + 1 else old(at)
    {
      if at >= |packet| {
        return None;
      }
      r := Some(packet[at]);
      at := at + 1;
    }

    /** Two bytes, high first. A packet that ends between them has had the
        first one taken. */
    method Pair() returns (r: Option<nat>)
      modifies this
      ensures r == PairAt(packet, old(at))
      ensures r.Some? ==> at == old(at) + 2
      ensures r.None? ==> old(at) <= at && (old(at) <= |packet| ==> at <= |packet|)
    {
      var high := Byte();
      if high.None? {
        return None;
      }
      var low := Byte();
      if low.None? {
        return None;
      }
      r := Some(Big(high.value, low.value));
    }

    method Four() returns (r: Option<nat>)
      modifies this
      ensures r == FourAt(packet, old(at))
      ensures r.Some? ==> at == old(at) + 4
      ensures r.None? ==> old(at) <= at && (old(at) <= |packet| ==> at <= |packet|)
    {
      var high := Pair();
      if high.None? {
        return None;
      }
      var low := Pair();
      if low.None? {
        return None;
      }
      r := Some(high.value * 65536 + low.value);
    }

    method Bytes(many: nat) returns (r: Option<seq<byte>>)
      modifies this
      ensures r.Some? <==> old(at) + many <= |packet|
      ensures r.Some? ==> r.value == packet[old(at)..old(at) + many] && at == old(at) + many
      ensures r.None? ==> at == old(at)
    {
      if at + many > |packet| {
        return None;
      }
      r := Some(packet[at..at + many]);
      at := at + many;
    }

    /** The name the packet spells here with descending pointers, with the
        cursor left past its layout; or nothing, with the cursor where it
        was, when it spells none. The loop ends because every jump is below
        the last. */
    method Name() returns (r: Option<seq<Label>>)
      modifies this
      ensures match ReadAt(packet, old(at), old(at))
              case None => r == None && at == old(at)
              case Some(s) => r == Some(LabelsOf(s)) && at == old(at) + Extent(s) <= |packet|
    {
      ghost var start := at;
      var turn := Onward([], at, at, None);
      while turn.Onward?
        invariant at == start
        invariant turn.Onward? ==> Midway(packet, start, turn.labels, turn.here, turn.furthest, turn.after)
        invariant turn.Stuck? ==> ReadAt(packet, start, start).None?
        invariant turn.Ended? ==> EndsAs(packet, start, turn.name, turn.past)
        decreases turn.Onward?, if turn.Onward? then turn.furthest else 0, if turn.Onward? then |packet| - turn.here else 0
      {
        turn := Turned(packet, start, turn.labels, turn.here, turn.furthest, turn.after);
      }
      if turn.Stuck? {
        return None;
      }
      at := turn.past;
      r := Some(turn.name);
    }
  }

  ghost function PairAt(p: seq<byte>, at: nat): Option<nat> {
    if at + 2 <= |p| then Some(Big(p[at], p[at + 1])) else None
  }

  ghost function FourAt(p: seq<byte>, at: nat): Option<nat> {
    if at + 4 <= |p| then Some(Big(p[at], p[at + 1]) * 65536 + Big(p[at + 2], p[at + 3])) else None
  }

  lemma {:induction false} ExtentWithin(p: seq<byte>, at: nat, s: Spelling)
    requires Spelled(p, at, s)
    ensures at + Extent(s) <= |p|
    decreases s
  {
    if s.Labelled? {
      ExtentWithin(p, at + 1 + |s.text|, s.rest);
    }
  }
}
