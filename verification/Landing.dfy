/** Acknowledging windows that land out of order: each waits for the ones before
    it, and one that failed fails every one after. */
module Landing {
  import opened ChainHead

  datatype Resolution = Durable | Failed | Poisoned

  /** Every window from the first up to here came back, and well. */
  ghost predicate AllWell(came: map<nat, bool>, start: nat, until: nat) {
    forall n :: start <= n < until ==> n in came && came[n]
  }

  /** What a window that came back resolves to, by how it and the ones before it
      did. */
  ghost function Due(came: map<nat, bool>, start: nat, n: nat): Resolution
    requires n in came
  {
    if !AllWell(came, start, n) then Poisoned else if came[n] then Durable else Failed
  }

  ghost predicate IsDue(came: map<nat, bool>, start: nat, i: nat, r: Resolution) {
    start + i in came && r == Due(came, start, start + i)
  }

  /** The windows resolved so far are the first ones, each to what it is due. */
  ghost predicate AreDue(came: map<nat, bool>, start: nat, resolved: seq<Resolution>) {
    forall i :: 0 <= i < |resolved| ==> IsDue(came, start, i, resolved[i])
  }

  lemma FirstOnesCame(came: map<nat, bool>, start: nat, resolved: seq<Resolution>, n: nat)
    requires AreDue(came, start, resolved) && start <= n < start + |resolved|
    ensures n in came && resolved[n - start] == Due(came, start, n)
  {
    assert IsDue(came, start, n - start, resolved[n - start]);
  }

  lemma StillToResolve(came: map<nat, bool>, start: nat, resolved: seq<Resolution>, n: nat)
    requires AreDue(came, start, resolved) && n !in came && start <= n
    ensures start + |resolved| <= n
  {
    assert n < start + |resolved| ==> IsDue(came, start, n - start, resolved[n - start]);
  }

  lemma AllWellStays(came: map<nat, bool>, start: nat, resolved: seq<Resolution>, n: nat, ok: bool, m: nat)
    requires AreDue(came, start, resolved) && n !in came && m <= start + |resolved|
    ensures AllWell(came[n := ok], start, m) <==> AllWell(came, start, m)
  {
    if start <= n {
      StillToResolve(came, start, resolved, n);
    }
    forall k: nat | start <= k < m
      ensures k in came && came[n := ok][k] == came[k]
    {
      FirstOnesCame(came, start, resolved, k);
    }
  }

  lemma AreDueStays(came: map<nat, bool>, start: nat, resolved: seq<Resolution>, n: nat, ok: bool)
    requires AreDue(came, start, resolved) && n !in came
    ensures AreDue(came[n := ok], start, resolved)
  {
    forall i | 0 <= i < |resolved|
      ensures IsDue(came[n := ok], start, i, resolved[i])
    {
      assert IsDue(came, start, i, resolved[i]);
      AllWellStays(came, start, resolved, n, ok, start + i);
    }
  }

  lemma AreDueMore(came: map<nat, bool>, start: nat, resolved: seq<Resolution>)
    requires AreDue(came, start, resolved) && start + |resolved| in came
    ensures AreDue(came, start, resolved + [Due(came, start, start + |resolved|)])
  {
    var more := resolved + [Due(came, start, start + |resolved|)];
    forall i | 0 <= i < |more|
      ensures IsDue(came, start, i, more[i])
    {
      assert i < |resolved| ==> IsDue(came, start, i, resolved[i]);
    }
  }

  /** What came back and is still to resolve. */
  ghost predicate AreParked(parked: map<nat, bool>, came: map<nat, bool>, nextAck: nat) {
    && (forall n :: n in parked <==> n in came && n >= nextAck)
    && (forall n :: n in parked ==> parked[n] == came[n])
  }

  lemma ParkedNext(parked: map<nat, bool>, came: map<nat, bool>, nextAck: nat)
    requires AreParked(parked, came, nextAck)
    ensures AreParked(parked - {nextAck}, came, nextAck + 1)
  {
  }

  lemma WellNext(came: map<nat, bool>, start: nat, nextAck: nat)
    requires start <= nextAck && nextAck in came
    ensures AllWell(came, start, nextAck + 1) <==> AllWell(came, start, nextAck) && came[nextAck]
  {
  }

  /** The first window that came back badly. */
  ghost predicate IsFirstBad(came: map<nat, bool>, start: nat, bad: nat) {
    start <= bad && AllWell(came, start, bad) && bad in came && !came[bad]
  }

  /** No window is dispatched further than the limit past the first that is not
      known to have landed: the next to resolve, or the first bad one once there
      is one, where a window the flusher had in hand by then still goes out. */
  ghost predicate IsNear(came: map<nat, bool>, start: nat, nextAck: nat, end: nat, inHand: bool, limit: nat) {
    && (AllWell(came, start, nextAck) ==> end <= nextAck + limit)
    && (forall bad: nat :: IsFirstBad(came, start, bad) && bad < nextAck ==>
          end + (if inHand then 1 else 0) <= bad + limit + 1)
  }

  lemma NearStays(came: map<nat, bool>, start: nat, resolved: seq<Resolution>, n: nat, ok: bool, end: nat,
                  inHand: bool, limit: nat)
    requires AreDue(came, start, resolved) && n !in came
    requires IsNear(came, start, start + |resolved|, end, inHand, limit)
    ensures IsNear(came[n := ok], start, start + |resolved|, end, inHand, limit)
  {
    var nextAck, came' := start + |resolved|, came[n := ok];
    AllWellStays(came, start, resolved, n, ok, nextAck);
    forall bad: nat | IsFirstBad(came', start, bad) && bad < nextAck
      ensures end + (if inHand then 1 else 0) <= bad + limit + 1
    {
      FirstOnesCame(came, start, resolved, bad);
      AllWellStays(came, start, resolved, n, ok, bad);
      assert IsFirstBad(came, start, bad);
    }
  }

  /** Resolving the next window, which has come back. */
  lemma NearNext(came: map<nat, bool>, start: nat, nextAck: nat, end: nat, inHand: bool, limit: nat)
    requires start <= nextAck && nextAck in came && IsNear(came, start, nextAck, end, inHand, limit)
    ensures IsNear(came, start, nextAck + 1, end, inHand, limit)
  {
    WellNext(came, start, nextAck);
    forall bad: nat | IsFirstBad(came, start, bad) && bad < nextAck + 1
      ensures end + (if inHand then 1 else 0) <= bad + limit + 1
    {
      if bad < nextAck {
        assert IsFirstBad(came, start, bad) && bad < nextAck;
      }
    }
  }

  lemma {:induction false} FirstBad(came: map<nat, bool>, start: nat, resolved: seq<Resolution>) returns (bad: nat)
    requires AreDue(came, start, resolved) && !AllWell(came, start, start + |resolved|)
    ensures IsFirstBad(came, start, bad) && bad < start + |resolved|
    decreases |resolved|
  {
    var last := |resolved| - 1;
    FirstOnesCame(came, start, resolved, start + last);
    if AllWell(came, start, start + last) {
      bad := start + last;
    } else {
      assert forall i :: 0 <= i < last ==> IsDue(came, start, i, resolved[..last][i]) by {
        assert forall i :: 0 <= i < last ==> IsDue(came, start, i, resolved[i]);
      }
      bad := FirstBad(came, start, resolved[..last]);
    }
  }

  class Lander {
    const start: nat
    /** How many windows may be dispatched and unresolved. */
    const limit: nat
    var nextAck: nat
    var parked: map<nat, bool>
    var failed: bool
    var outstanding: nat
    /** The flusher closed a window before it knew of any failure, and waits for
        a slot with it. */
    var inHand: bool
    /** What each window resolved to, in chain order. */
    var resolved: seq<Resolution>
    /** How each put came back, and how many windows were dispatched. */
    ghost var came: map<nat, bool>
    ghost var dispatched: nat

    /** All but that the next window to resolve is still to come. */
    ghost predicate Resolving()
      reads this
    {
      && nextAck == start + |resolved|
      && AreParked(parked, came, nextAck)
      && (forall n :: n in came ==> start <= n < start + dispatched)
      && AreDue(came, start, resolved)
      && (failed <==> !AllWell(came, start, nextAck))
      && outstanding + |resolved| == dispatched && outstanding <= limit <= MAX_INFLIGHT
      && IsNear(came, start, nextAck, start + dispatched, inHand, limit)
    }

    ghost predicate Valid()
      reads this
    {
      Resolving() && nextAck !in came
    }

    constructor (from: nat, limit: nat)
      requires 1 <= limit <= MAX_INFLIGHT
      ensures Valid() && start == from && this.limit == limit
      ensures resolved == [] && came == map[] && dispatched == 0 && !inHand
    {
      start, nextAck, parked, failed, outstanding, resolved := from, from, map[], false, 0, [];
      this.limit, inHand := limit, false;
      came, dispatched := map[], 0;
    }

    /** The flusher closes a window, and drops it where one failed before. */
    method Close() returns (kept: bool)
      requires Valid() && !inHand
      modifies this`inHand
      ensures Valid() && inHand == kept
      ensures kept <==> AllWell(came, start, start + |resolved|)
    {
      kept := !failed;
      inHand := kept;
    }

    /** A slot for the window in hand, or a wait for one. */
    method Admit() returns (admitted: bool)
      requires Valid() && inHand
      modifies this
      ensures Valid() && came == old(came) && resolved == old(resolved)
      ensures admitted <==> old(dispatched) < |resolved| + limit
      ensures dispatched == old(dispatched) + (if admitted then 1 else 0) && inHand == !admitted
    {
      admitted := outstanding < limit;
      if admitted {
        outstanding, dispatched, inHand := outstanding + 1, dispatched + 1, false;
      }
    }

    /** A window went out only once every one of the line's more than the limit
        before it had come back well. */
    lemma SentAfterLanding(n: nat, m: nat)
      requires Valid() && n < start + dispatched && start <= m && m + limit < n
      ensures m in came && came[m]
    {
      if !AllWell(came, start, nextAck) {
        var bad := FirstBad(came, start, resolved);
        assert m < bad;
      }
    }

    /** What stands at the windows' positions has no hole with anything further
        than the limit past it, whatever is still in flight and whatever failed:
        what landed stays, and nothing lands that was not dispatched. */
    lemma StragglersAreNear(present: nat -> bool, hole: nat)
      requires Valid() && 0 < start <= hole && !present(hole)
      requires forall n :: n in came && came[n] ==> present(n)
      requires forall n :: start <= n && present(n) ==> n < start + dispatched
      requires forall n :: start <= n < hole ==> present(n)
      ensures forall n :: n > hole + limit ==> !present(n)
      ensures IsHole(present, start - 1, hole)
    {
      if AllWell(came, start, nextAck) {
        assert nextAck <= hole;
      } else {
        var bad := FirstBad(came, start, resolved);
        assert bad <= hole;
      }
    }

    /** The next window resolves, whether or not it came back well. */
    method ResolveNext()
      requires Resolving() && nextAck in parked
      modifies this
      ensures Resolving() && nextAck == old(nextAck) + 1
      ensures came == old(came) && dispatched == old(dispatched) && inHand == old(inHand)
      ensures old(resolved) <= resolved
    {
      var well := parked[nextAck];
      WellNext(came, start, nextAck);
      ParkedNext(parked, came, nextAck);
      AreDueMore(came, start, resolved);
      NearNext(came, start, nextAck, start + dispatched, inHand, limit);
      parked := parked - {nextAck};
      resolved := resolved + [if failed then Poisoned else if well then Durable else Failed];
      failed := failed || !well;
      nextAck := nextAck + 1;
      outstanding := outstanding - 1;
    }

    /** A put came back: it parks, and whatever is now contiguous resolves. */
    method Complete(n: nat, ok: bool)
      requires Valid() && n !in came && start <= n < start + dispatched
      modifies this
      ensures Valid() && came == old(came)[n := ok] && dispatched == old(dispatched) && inHand == old(inHand)
      ensures old(resolved) <= resolved
    {
      StillToResolve(came, start, resolved, n);
      AreDueStays(came, start, resolved, n, ok);
      AllWellStays(came, start, resolved, n, ok, nextAck);
      NearStays(came, start, resolved, n, ok, start + dispatched, inHand, limit);
      parked := parked[n := ok];
      came := came[n := ok];
      while nextAck in parked
        invariant Resolving() && came == old(came)[n := ok] && dispatched == old(dispatched) && inHand == old(inHand)
        invariant old(resolved) <= resolved
        decreases start + dispatched - nextAck
      {
        ResolveNext();
      }
    }
  }

  /** So the search of the next takeover, over what a line left that stopped at any
      moment, ends before the first hole. */
  method HeadLeftBy(lander: Lander, present: nat -> bool, ghost hole: nat) returns (head: nat)
    requires lander.Valid() && 0 < lander.start <= hole && !present(hole)
    requires forall n :: n in lander.came && lander.came[n] ==> present(n)
    requires forall n :: lander.start <= n && present(n) ==> n < lander.start + lander.dispatched
    requires forall n :: lander.start <= n < hole ==> present(n)
    ensures head == hole - 1
  {
    lander.StragglersAreNear(present, hole);
    head := Head(present, lander.start - 1, hole);
  }

  /** What two orders of coming back leave is the same. */
  lemma OrderIsNothing(came: map<nat, bool>, start: nat, a: seq<Resolution>, b: seq<Resolution>)
    requires AreDue(came, start, a) && start + |a| !in came
    requires AreDue(came, start, b) && start + |b| !in came
    ensures a == b
  {
    if |a| < |b| {
      FirstOnesCame(came, start, b, start + |a|);
    } else if |b| < |a| {
      FirstOnesCame(came, start, a, start + |b|);
    }
    forall i | 0 <= i < |a| && i < |b|
      ensures a[i] == b[i]
    {
      assert IsDue(came, start, i, a[i]) && IsDue(came, start, i, b[i]);
    }
  }

  /** A window is called durable exactly when it and every one before it came
      back well. */
  lemma DurableIff(came: map<nat, bool>, start: nat, resolved: seq<Resolution>, n: nat)
    requires AreDue(came, start, resolved) && start + |resolved| !in came && start <= n
    ensures n < start + |resolved| && resolved[n - start].Durable? <==> AllWell(came, start, n + 1)
  {
    if AllWell(came, start, n + 1) {
      assert start + |resolved| <= n ==> start + |resolved| in came;
      assert AllWell(came, start, n);
      FirstOnesCame(came, start, resolved, n);
    }
    if n < start + |resolved| {
      FirstOnesCame(came, start, resolved, n);
    }
  }
}
