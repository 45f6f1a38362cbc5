/** Reading things one after the other out of a packet, whatever they are.

    `read` answers what stands at an offset and where the next thing begins. */
module Walks {
  import opened Wrappers

  datatype Walked<T> = Walked(items: seq<T>, next: nat)

  /** The first so many things, or nothing when one of them is not there. */
  ghost function Walk<T>(read: nat -> Option<(T, nat)>, at: nat, many: nat): Option<Walked<T>>
    decreases many
  {
    if many == 0 then Some(Walked([], at))
    else match Walk(read, at, many - 1)
         case None => None
         case Some(w) =>
           match read(w.next)
           case None => None
           case Some(one) => Some(Walked(w.items + [one.0], one.1))
  }

  lemma WalkOneMore<T>(read: nat -> Option<(T, nat)>, at: nat, many: nat, w: Walked<T>)
    requires Walk(read, at, many) == Some(w)
    ensures read(w.next).None? ==> Walk(read, at, many + 1).None?
    ensures read(w.next).Some? ==>
              Walk(read, at, many + 1) == Some(Walked(w.items + [read(w.next).value.0], read(w.next).value.1))
  {
  }

  /** What is missing once is missing for every longer walk. */
  lemma {:induction false} MissingStaysMissing<T>(read: nat -> Option<(T, nat)>, at: nat, few: nat, many: nat)
    requires few <= many && Walk(read, at, few).None?
    ensures Walk(read, at, many).None?
    decreases many
  {
    if few < many {
      MissingStaysMissing(read, at, few, many - 1);
    }
  }

  /** The things stand at these offsets, each where the one before it ended. */
  ghost predicate Chained<T(!new)>(read: nat -> Option<(T, nat)>, items: seq<T>, offsets: seq<nat>) {
    && |offsets| == |items| + 1
    && forall i :: 0 <= i < |items| ==> read(offsets[i]) == Some((items[i], offsets[i + 1]))
  }

  lemma {:induction false} ChainIsWalked<T(!new)>(
      read: nat -> Option<(T, nat)>, items: seq<T>, offsets: seq<nat>, many: nat)
    requires Chained(read, items, offsets) && many <= |items|
    ensures Walk(read, offsets[0], many) == Some(Walked(items[..many], offsets[many]))
    decreases many
  {
    if many > 0 {
      ChainIsWalked(read, items, offsets, many - 1);
      assert items[..many] == items[..many - 1] + [items[many - 1]];
    }
  }

  /** Every walk that gets to its end went along a chain. */
  lemma {:induction false} WalkIsChained<T(!new)>(read: nat -> Option<(T, nat)>, at: nat, many: nat)
    returns (offsets: seq<nat>)
    requires Walk(read, at, many).Some?
    ensures Chained(read, Walk(read, at, many).value.items, offsets)
    ensures |Walk(read, at, many).value.items| == many && offsets[0] == at
    ensures offsets[many] == Walk(read, at, many).value.next
    decreases many
  {
    if many == 0 {
      offsets := [at];
    } else {
      var before := WalkIsChained(read, at, many - 1);
      offsets := before + [Walk(read, at, many).value.next];
    }
  }

  /** Every thing turned into what it says, one after the other. */
  ghost function Said<T, U>(say: T -> seq<U>, items: seq<T>): seq<U> {
    if items == [] then [] else Said(say, items[..|items| - 1]) + say(items[|items| - 1])
  }

  lemma SaidSnoc<T, U>(say: T -> seq<U>, items: seq<T>, one: T)
    ensures Said(say, items + [one]) == Said(say, items) + say(one)
  {
    assert (items + [one])[..|items|] == items;
  }

  /** How far a walk that says what it finds has got. */
  datatype Progress<U> = Progress(done: nat, said: seq<U>, next: nat)

  ghost function SayAll<T, U>(read: nat -> Option<(T, nat)>, say: T -> seq<U>, at: nat, many: nat): Option<Progress<U>> {
    match Walk(read, at, many)
    case None => None
    case Some(w) => Some(Progress(many, Said(say, w.items), w.next))
  }

  lemma SayingEnds<T, U>(read: nat -> Option<(T, nat)>, say: T -> seq<U>, at: nat, pr: Progress<U>, many: nat)
    requires SayAll(read, say, at, pr.done) == Some(pr) && pr.done < many
    requires read(pr.next).None?
    ensures SayAll(read, say, at, many).None?
  {
    WalkOneMore(read, at, pr.done, Walk(read, at, pr.done).value);
    MissingStaysMissing(read, at, pr.done + 1, many);
  }

  lemma SayingGrows<T, U>(
      read: nat -> Option<(T, nat)>, say: T -> seq<U>, at: nat, pr: Progress<U>, one: T, next: nat)
    requires SayAll(read, say, at, pr.done) == Some(pr)
    requires read(pr.next) == Some((one, next))
    ensures SayAll(read, say, at, pr.done + 1) == Some(Progress(pr.done + 1, pr.said + say(one), next))
  {
    var w := Walk(read, at, pr.done).value;
    WalkOneMore(read, at, pr.done, w);
    SaidSnoc(say, w.items, one);
  }

  lemma {:induction false} SameSaid<T, S, U>(say: T -> seq<U>, items: seq<T>, say': S -> seq<U>, items': seq<S>)
    requires |items| == |items'|
    requires forall i :: 0 <= i < |items| ==> say(items[i]) == say'(items'[i])
    ensures Said(say, items) == Said(say', items')
    decreases |items|
  {
    if items != [] {
      SameSaid(say, items[..|items| - 1], say', items'[..|items| - 1]);
    }
  }

  // Things written one after the other.

  function Concat<T>(parts: seq<seq<T>>): seq<T> {
    if parts == [] then [] else Concat(parts[..|parts| - 1]) + parts[|parts| - 1]
  }

  /** Where each part begins, and where the last one ends. */
  function Starts<T>(at: nat, parts: seq<seq<T>>): (starts: seq<nat>)
    ensures |starts| == |parts| + 1
  {
    if parts == [] then [at]
    else
      var before := Starts(at, parts[..|parts| - 1]);
      before + [before[|parts| - 1] + |parts[|parts| - 1]|]
  }

  lemma {:induction false} StartsAndEnds<T>(at: nat, parts: seq<seq<T>>)
    ensures Starts(at, parts)[0] == at
    ensures Starts(at, parts)[|parts|] == at + |Concat(parts)|
    decreases |parts|
  {
    if parts != [] {
      StartsAndEnds(at, parts[..|parts| - 1]);
    }
  }

  lemma {:induction false} StartsStep<T>(at: nat, parts: seq<seq<T>>, k: nat)
    requires k < |parts|
    ensures Starts(at, parts)[k + 1] == Starts(at, parts)[k] + |parts[k]|
    decreases |parts|
  {
    if k < |parts| - 1 {
      StartsStep(at, parts[..|parts| - 1], k);
    }
  }

  /** `part` stands in the packet at this offset. */
  predicate At<T(==)>(p: seq<T>, at: nat, part: seq<T>) {
    at + |part| <= |p| && p[at..at + |part|] == part
  }

  lemma AtSplits<T>(p: seq<T>, at: nat, a: seq<T>, b: seq<T>)
    requires At(p, at, a + b)
    ensures At(p, at, a) && At(p, at + |a|, b)
  {
    var window := p[at..at + |a + b|];
    assert p[at..at + |a|] == window[..|a|] == a;
    assert p[at + |a|..at + |a| + |b|] == window[|a|..] == b;
  }

  lemma {:induction false} PartsStand<T>(p: seq<T>, at: nat, parts: seq<seq<T>>, k: nat)
    requires At(p, at, Concat(parts)) && k < |parts|
    ensures At(p, Starts(at, parts)[k], parts[k])
    decreases |parts|
  {
    var last := |parts| - 1;
    AtSplits(p, at, Concat(parts[..last]), parts[last]);
    StartsAndEnds(at, parts[..last]);
    if k < last {
      PartsStand(p, at, parts[..last], k);
    }
  }
}
