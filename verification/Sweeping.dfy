/** The sweep an owner makes over what a fenced writer left past its seal: which
    way it goes, where it stops, and what it leaves. */
module Sweeping {
  import opened Wrappers
  import opened Chain
  import opened Takeover
  import opened ChainHead
  import opened Recovery
  import Judging
  import Runs

  predicate IsSweepsOwn(a: Action, l: nat) {
    a == Fetch(l) || a == Delete(l) || a == EndSweep(l)
  }

  /** How far a sweep is; finding a window to delete is half a position. */
  function Progress(s: Sweep): nat {
    2 * s.at + if s.doomed then 1 else 0
  }

  predicate IsAboutTheSweep(a: Action, l: nat) {
    IsSweepsOwn(a, l) || (a.Probe? && a.line == l)
  }

  /** Where a line's sweep is after a step of its own. */
  lemma OwnStepMoves(st: State, a: Action, l: nat)
    requires Enabled(st, a) && IsAboutTheSweep(a, l)
    ensures l in st.cursors && st.cursors[l].sweep.Some? && l in Next(st, a).cursors
    ensures var s, next := st.cursors[l].sweep.value, Next(st, a).cursors[l].sweep;
            match a
            case Fetch(_) => s.at + 1 in s.answers && next == Fetched(st.store, st.cursors[l]).sweep
            case Delete(_) => s.doomed && next == Some(s.(at := s.at + 1, doomed := false))
            case EndSweep(_) => next == None
            case Probe(_, n) => next == Some(s.(answers := s.answers[n := n in st.store]))
            case _ => false
  {
  }

  lemma SwapLeavesTheSweep(st: State, a: Action, l: nat)
    requires Enabled(st, a) && a.Swap? && l in st.cursors && l <= st.version
    ensures l in Next(st, a).cursors && Next(st, a).cursors[l].sweep == st.cursors[l].sweep
  {
  }

  /** No other step moves it. */
  lemma OthersLeaveTheSweep(st: State, a: Action, l: nat)
    requires Enabled(st, a) && !IsAboutTheSweep(a, l) && l in st.cursors && l <= st.version
    ensures l in Next(st, a).cursors && Next(st, a).cursors[l].sweep == st.cursors[l].sweep
  {
    if a.Swap? {
      SwapLeavesTheSweep(st, a, l);
    } else if Judging.IsAboutAPut(a) {
      Judging.PutActionIs(st, a);
    } else if a.Dispatch? {
      Judging.DispatchIs(st, a);
    }
  }

  // It goes on and never begins again.

  /** Each request of a sweep takes it on or ends it, nothing else moves it, and
      one that is over stays over. */
  lemma SweepsGoForward(st: State, a: Action, l: nat)
    requires Reached(st) && Step(st, a).Some? && l in st.cursors
    ensures var was, now := st.cursors[l].sweep, Step(st, a).value.cursors[l].sweep;
            && (was.None? ==> now.None?)
            && (was.Some? && IsSweepsOwn(a, l) ==> now.None? || Progress(was.value) < Progress(now.value))
            && (was.Some? && !IsSweepsOwn(a, l) ==> now.Some? && Progress(was.value) == Progress(now.value))
  {
    assert l <= st.version by {
      Judging.ReachedInOrder(st);
      assert Judging.IsBelow(st, l);
    }
    if IsAboutTheSweep(a, l) {
      OwnStepMoves(st, a, l);
    } else {
      OthersLeaveTheSweep(st, a, l);
    }
  }

  // It stops at a seal.

  /** A seal past where a line's sweep is, and no probe of it that says it is not
      there. */
  ghost predicate IsInTheWay(st: State, l: nat, n: nat) {
    && HoldsSeal(st.store, n) && l in st.cursors
    && (st.cursors[l].sweep.Some? ==>
          var s := st.cursors[l].sweep.value; s.at < n && (n in s.answers ==> s.answers[n]))
  }

  lemma SealStays(st: State, a: Action, n: nat)
    requires Inv(st) && Enabled(st, a) && Careful(st, a) && HoldsSeal(st.store, n)
    ensures HoldsSeal(Next(st, a).store, n)
  {
    if a.Delete? || a.Clear? {
      DeletesNoSeal(st, a, n);
      DeletingLeaves(st, a, n);
    } else {
      AddingLeaves(st, a, n);
    }
  }

  lemma DeletesNoSeal(st: State, a: Action, n: nat)
    requires Inv(st) && Enabled(st, a) && Careful(st, a) && (a.Delete? || a.Clear?) && HoldsSeal(st.store, n)
    ensures Gone(st, a) != n
  {
    DeletedIsLitter(st, a);
  }

  lemma DeletingLeaves(st: State, a: Action, n: nat)
    requires Enabled(st, a) && (a.Delete? || a.Clear?) && HoldsSeal(st.store, n) && Gone(st, a) != n
    ensures HoldsSeal(Next(st, a).store, n)
  {
    DeletingIs(st, a);
  }

  lemma AddingLeaves(st: State, a: Action, n: nat)
    requires Enabled(st, a) && !a.Delete? && !a.Clear? && HoldsSeal(st.store, n)
    ensures HoldsSeal(Next(st, a).store, n)
  {
  }

  /** What a step of its own comes to for a sweep with a seal ahead. */
  lemma OwnStepStaysBelow(st: State, a: Action, l: nat, n: nat)
    requires Enabled(st, a) && IsAboutTheSweep(a, l) && IsInTheWay(st, l, n)
    requires a == Delete(l) ==> st.cursors[l].sweep.value.at + 1 != n
    ensures l in Next(st, a).cursors
    ensures Next(st, a).cursors[l].sweep.Some? ==>
              var s := Next(st, a).cursors[l].sweep.value; s.at < n && (n in s.answers ==> s.answers[n])
  {
    OwnStepMoves(st, a, l);
  }

  lemma WayStays(st: State, a: Action, l: nat, n: nat)
    requires Enabled(st, a) && IsInTheWay(st, l, n) && l <= st.version && HoldsSeal(Next(st, a).store, n)
    requires a == Delete(l) ==> st.cursors[l].sweep.value.at + 1 != n
    ensures IsInTheWay(Next(st, a), l, n)
  {
    if IsAboutTheSweep(a, l) {
      OwnStepStaysBelow(st, a, l, n);
    } else {
      OthersLeaveTheSweep(st, a, l);
    }
  }

  lemma LinesAreBelow(st: State, l: nat)
    requires Inv(st) && l in st.cursors
    ensures l <= st.version
  {
    assert l in st.lines && LineIsRight(st.store, st.version, l, st.lines[l]);
  }

  lemma StaysInTheWay(st: State, a: Action, l: nat, n: nat)
    requires Inv(st) && Enabled(st, a) && Careful(st, a) && IsInTheWay(st, l, n)
    ensures IsInTheWay(Next(st, a), l, n)
  {
    SealStays(st, a, n);
    LinesAreBelow(st, l);
    if a == Delete(l) {
      DeletesNoSeal(st, a, n);
    }
    WayStays(st, a, l, n);
  }

  /** In every run whose deletes arrive in time, a sweep with a seal ahead of it
      that it was not told is missing never comes to it, so it deletes nothing at
      or past it, and the seal stays. */
  lemma SweepsStopAtSeals(st: State, l: nat, n: nat, run: seq<Action>, end: State)
    requires CarefullyReached(st) && IsInTheWay(st, l, n) && Runs.After(Carefully, st, run) == Some(end)
    ensures HoldsSeal(end.store, n) && l in end.cursors
    ensures end.cursors[l].sweep.Some? ==> end.cursors[l].sweep.value.at < n
  {
    ReachedIsRight(st);
    forall s, a | (Inv(s) && IsInTheWay(s, l, n)) && Carefully(s, a).Some?
      ensures Inv(Carefully(s, a).value) && IsInTheWay(Carefully(s, a).value, l, n)
    {
      StepKeeps(s, a);
      StaysInTheWay(s, a, l, n);
    }
    Runs.Always(Carefully, s => Inv(s) && IsInTheWay(s, l, n), st, run);
  }

  // It leaves nothing behind it but what came after.

  ghost predicate IsAlone(run: seq<Action>, l: nat) {
    forall i :: 0 <= i < |run| ==> IsAboutTheSweep(run[i], l)
  }

  /** Of what was there, the windows between two positions are gone, and nothing
      else is. */
  ghost predicate IsDone(before: Store, store: Store, from: nat, until: nat) {
    && from <= until
    && (forall n :: from < n <= until ==> n !in store && (n in before ==> before[n].Landing?))
    && (forall n :: !(from < n <= until) ==> (n in store <==> n in before) && (n in before ==> store[n] == before[n]))
  }

  /** That up to where the sweep is, and what it has seen is so. */
  ghost predicate IsSwept(before: Store, store: Store, from: nat, s: Sweep) {
    && IsDone(before, store, from, s.at)
    && (forall n :: n in s.answers && !s.answers[n] ==> n !in store)
    && (s.doomed ==> HoldsWindow(store, s.at + 1))
  }

  lemma SweptMore(before: Store, from: nat, st: State, a: Action, l: nat, next: State)
    requires Step(st, a) == Some(next) && IsAboutTheSweep(a, l) && l in st.cursors && st.cursors[l].sweep.Some?
    requires IsSwept(before, st.store, from, st.cursors[l].sweep.value)
    ensures l in next.cursors
    ensures next.cursors[l].sweep.Some? ==> IsSwept(before, next.store, from, next.cursors[l].sweep.value)
    ensures next.cursors[l].sweep.None? ==> IsDone(before, next.store, from, st.cursors[l].sweep.value.at)
    ensures next.cursors[l].sweep.None? && a == Fetch(l) ==> HoldsSeal(next.store, st.cursors[l].sweep.value.at + 1)
  {
    OwnStepMoves(st, a, l);
  }

  /** Left alone, a sweep takes away exactly the windows from its seal to where it
      is, whatever it has done by then. */
  lemma {:induction false} SweptFrom(before: Store, from: nat, st: State, l: nat, run: seq<Action>, end: State)
    returns (until: nat)
    requires l in st.cursors && IsAlone(run, l) && Runs.After(Step, st, run) == Some(end)
    requires st.cursors[l].sweep.Some? && IsSwept(before, st.store, from, st.cursors[l].sweep.value)
    ensures IsDone(before, end.store, from, until) && l in end.cursors
    ensures end.cursors[l].sweep.None? ==> run != []
    ensures end.cursors[l].sweep.Some? ==> until == end.cursors[l].sweep.value.at
    ensures end.cursors[l].sweep.None? && run[|run| - 1] == Fetch(l) ==> HoldsSeal(end.store, until + 1)
    decreases |run|
  {
    until := st.cursors[l].sweep.value.at;
    if run != [] {
      var next := Step(st, run[0]).value;
      SweptMore(before, from, st, run[0], l, next);
      if next.cursors[l].sweep.Some? {
        until := SweptFrom(before, from, next, l, run[1..], end);
      } else {
        SweepIsOver(next, l, run[1..], end);
      }
    }
  }

  lemma NoMoreSteps(st: State, a: Action, l: nat)
    requires l in st.cursors && st.cursors[l].sweep.None? && IsAboutTheSweep(a, l)
    ensures Step(st, a).None?
  {
  }

  lemma SweepIsOver(st: State, l: nat, run: seq<Action>, end: State)
    requires l in st.cursors && st.cursors[l].sweep.None? && IsAlone(run, l)
    requires Runs.After(Step, st, run) == Some(end)
    ensures run == [] && end == st
  {
    if run != [] {
      NoMoreSteps(st, run[0], l);
    }
  }

  /** A new owner's sweep, left alone, takes away exactly the windows between its
      seal and where it is or stopped, which it does at a seal unless it is called
      off. */
  lemma SweepsClear(st: State, l: nat, run: seq<Action>, end: State) returns (until: nat)
    requires l in st.lines && l in st.cursors
    requires st.cursors[l].sweep == Some(Sweep(st.lines[l].sealed, map[], false))
    requires IsAlone(run, l) && Runs.After(Step, st, run) == Some(end)
    ensures IsDone(st.store, end.store, st.lines[l].sealed, until) && l in end.cursors
    ensures end.cursors[l].sweep.None? ==> run != []
    ensures end.cursors[l].sweep.Some? ==> until == end.cursors[l].sweep.value.at
    ensures end.cursors[l].sweep.None? && run[|run| - 1] == Fetch(l) ==> HoldsSeal(end.store, until + 1)
  {
    until := SweptFrom(st.store, st.lines[l].sealed, st, l, run, end);
  }

  // As the code walks it, a window of probes at a time, over a store nobody else
  // changes.

  const PROBE_WIDTH: nat := 32

  /** So far along, with nothing at the last so many positions. */
  ghost predicate IsAlong(before: Store, left: Store, sealed: nat, at: nat, gap: nat) {
    IsDone(before, left, sealed, at) && sealed + gap <= at && forall n :: at - gap < n <= at ==> n !in before
  }

  /** A sweep ends at a seal, or past 64 positions in a row with nothing there. */
  ghost predicate IsOver(before: Store, left: Store, sealed: nat, until: nat) {
    && IsDone(before, left, sealed, until)
    && (HoldsSeal(before, until + 1) || (sealed + 64 <= until && forall n :: until - 64 < n <= until ==> n !in before))
  }

  ghost function Above(store: Store, at: nat): nat {
    |set n | n in store.Keys && n > at|
  }

  lemma AbovePasses(store: Store, at: nat)
    ensures Above(store, at + 1) == Above(store, at) - if at + 1 in store then 1 else 0
  {
    var more, fewer := set n | n in store.Keys && n > at, set n | n in store.Keys && n > at + 1;
    if at + 1 in store {
      assert more == fewer + {at + 1};
    } else {
      assert more == fewer;
    }
  }

  lemma AlongMore(before: Store, left: Store, sealed: nat, at: nat, gap: nat)
    requires IsAlong(before, left, sealed, at, gap)
    ensures at + 1 !in left ==> at + 1 !in before && IsAlong(before, left, sealed, at + 1, gap + 1)
    ensures HoldsWindow(left, at + 1) ==> IsAlong(before, left - {at + 1}, sealed, at + 1, 0)
    ensures HoldsSeal(left, at + 1) ==> IsOver(before, left, sealed, at)
  {
  }

  method ProbeWindow(store: Store, from: nat) returns (window: seq<bool>)
    ensures |window| == PROBE_WIDTH && forall i :: 0 <= i < PROBE_WIDTH ==> window[i] == (from + i in store)
  {
    window := seq(PROBE_WIDTH, i requires 0 <= i => from + i in store);
  }

  method SweepWindow(ghost before: Store, store: Store, ghost sealed: nat, from: nat, was: nat)
    returns (left: Store, at: nat, gap: nat, over: bool)
    requires IsAlong(before, store, sealed, from, was) && was < MAX_INFLIGHT
    ensures over ==> IsOver(before, left, sealed, at)
    ensures !over ==> IsAlong(before, left, sealed, at, gap) && gap < MAX_INFLIGHT
    ensures !over ==> Above(before, at) < Above(before, from) || (Above(before, at) == Above(before, from) && was < gap)
  {
    left, at, gap := store, from, was;
    var window := ProbeWindow(store, from + 1);
    for i := 0 to PROBE_WIDTH
      invariant at == from + i && IsAlong(before, left, sealed, at, gap) && gap < MAX_INFLIGHT
      invariant forall n :: at < n ==> (n in left <==> n in store)
      invariant Above(before, at) < Above(before, from) || (Above(before, at) == Above(before, from) && gap == was + i)
    {
      AlongMore(before, left, sealed, at, gap);
      AbovePasses(before, at);
      assert window[i] == (at + 1 in left);
      if !window[i] {
        at, gap := at + 1, gap + 1;
        if gap >= MAX_INFLIGHT {
          return left, at, gap, true;
        }
      } else if left[at + 1].Seal? {
        return left, at, gap, true;
      } else {
        left := left - {at + 1};
        at, gap := at + 1, 0;
      }
    }
    over := false;
  }

  /** The sweep takes away exactly the windows up to where it ends. */
  method SweepStragglers(store: Store, sealed: nat) returns (left: Store, until: nat)
    ensures IsOver(store, left, sealed, until)
  {
    var gap: nat, over := 0, false;
    left, until := store, sealed;
    while !over
      invariant !over ==> IsAlong(store, left, sealed, until, gap) && gap < MAX_INFLIGHT
      invariant over ==> IsOver(store, left, sealed, until)
      decreases !over, Above(store, until), MAX_INFLIGHT - gap
    {
      left, until, gap, over := SweepWindow(store, left, sealed, until, gap);
    }
  }

  /** What a sweep leaves past its seal is past another seal too, or past 64
      positions in a row with nothing there. */
  lemma WhatIsLeft(before: Store, left: Store, sealed: nat, until: nat, n: nat)
    requires IsOver(before, left, sealed, until) && sealed < n && HoldsWindow(left, n)
    ensures until < n && left[n] == before[n]
    ensures (exists k: nat :: sealed < k < n && HoldsSeal(left, k)) || sealed + 64 < n
  {
    if HoldsSeal(before, until + 1) {
      assert HoldsSeal(left, until + 1);
    }
  }

  /** So where the takeover sealed right at the first hole, whichever lines left
      what, its sweep leaves no window past its seal that another seal does not come
      before. */
  lemma NewOwnersAreClear(st: State, hole: nat, seal: Segment, left: Store, until: nat)
    requires AdmittedlyReached(st) && st.head < hole && hole !in st.store
    requires forall n: nat :: st.head < n < hole ==> n in st.store
    requires IsOver(st.store[hole := seal], left, hole, until)
    ensures forall n: nat :: hole < n && HoldsWindow(left, n) ==> exists k: nat :: hole < k < n && HoldsSeal(left, k)
  {
    NothingIsFar(st, hole);
    forall n: nat | hole < n && HoldsWindow(left, n)
      ensures exists k: nat :: hole < k < n && HoldsSeal(left, k)
    {
      WhatIsLeft(st.store[hole := seal], left, hole, until, n);
      assert n in st.store;
    }
  }
}
