/** Three runs of the takeover as the code takes it, with requests that are slow
    and nothing else wrong, that end where no run should, and what each takes. */
module TakeoverRaces {
  import opened Wrappers
  import opened Chain
  import opened Takeover
  import opened Recovery
  import Runs

  /** What holds of every state the machine goes on to from one it holds of,
      deletes aside. */
  ghost predicate IsClosed(reached: State -> bool) {
    forall s, a :: reached(s) && Enabled(s, a) && !a.Delete? && !a.Clear? ==> reached(Next(s, a))
  }

  ghost predicate IsClosedUnderDeletes(reached: State -> bool) {
    forall s, l :: reached(s) && Enabled(s, Delete(l)) ==> reached(Next(s, Delete(l)))
  }

  lemma ReachedByStep(s: State, a: Action)
    requires Reached(s) && Enabled(s, a)
    ensures Reached(Next(s, a))
  {
    var run :| Runs.After(Step, START, run) == Some(s);
    var run', s' := Runs.Then(Step, START, run, s, a);
  }

  lemma ReachedIsClosed()
    ensures Reached(START) && IsClosed(Reached) && IsClosedUnderDeletes(Reached)
  {
    assert Runs.After(Step, START, []) == Some(START);
    forall s, a | Reached(s) && Enabled(s, a)
      ensures Reached(Next(s, a))
    {
      ReachedByStep(s, a);
    }
  }

  lemma CarefullyReachedIsClosed()
    ensures CarefullyReached(START) && IsClosed(CarefullyReached)
  {
    assert Runs.After(Carefully, START, []) == Some(START);
    forall s, a | CarefullyReached(s) && Enabled(s, a) && !a.Delete? && !a.Clear?
      ensures CarefullyReached(Next(s, a))
    {
      var run :| Runs.After(Carefully, START, run) == Some(s);
      var run', s' := Runs.Then(Carefully, START, run, s, a);
    }
  }

  /** What the digests of the windows below say: a second line sends the first
      of the windows the first line had after it again, and others from then
      on. */
  function Early(n: nat): nat {
    n
  }

  function Later(n: nat): nat {
    if n <= 3 then n else 100 + n
  }

  // Single steps, said as what they lead to.

  lemma Loads(reached: State -> bool, st: State, t: nat)
    requires IsClosed(reached) && reached(st) && TakerOf(st, t) == Idle
    ensures reached(Taking(st, t, Loaded(st.version, st.head)))
  {
    assert Enabled(st, Load(t));
  }

  lemma Finds(reached: State -> bool, st: State, t: nat, v: nat, floor: nat, at: nat)
    requires IsClosed(reached) && reached(st)
    requires TakerOf(st, t) == Loaded(v, floor) && floor <= at && (at == 0 || at in st.store)
    ensures reached(Taking(st, t, Found(v, at, DigestAt(st.store, at))))
  {
    assert Enabled(st, Find(t, at));
  }

  lemma Seals(reached: State -> bool, st: State, t: nat, v: nat, at: nat, prev: Digest)
    requires IsClosed(reached) && reached(st)
    requires TakerOf(st, t) == Found(v, at, prev) && at + 1 !in st.store
    ensures reached(Taking(st, t, Sealed(v, at + 1)).(store := st.store[at + 1 := Seal(prev)]))
  {
    assert Enabled(st, PutSeal(t));
  }

  lemma Swaps(reached: State -> bool, st: State, t: nat, at: nat, tails: nat -> nat)
    requires IsClosed(reached) && reached(st) && TakerOf(st, t) == Sealed(st.version, at)
    ensures reached(Owned(Taking(st, t, Idle), at, tails))
  {
    assert Enabled(st, Swap(t, tails));
  }

  /** The state after a takeover with nobody in its way. */
  function TakenOver(st: State, t: nat, at: nat, tails: nat -> nat): State {
    var sealed := st.store[at + 1 := Seal(DigestAt(st.store, at))];
    Owned(State(sealed, st.version, st.head, st.lines, st.cursors, st.takers[t := Idle], st.acked), at + 1, tails)
  }

  lemma TakesOver(reached: State -> bool, st: State, t: nat, at: nat, tails: nat -> nat)
    requires IsClosed(reached) && reached(st) && TakerOf(st, t) == Idle
    requires at >= st.head && (at == 0 || at in st.store) && at + 1 !in st.store
    ensures reached(TakenOver(st, t, at, tails))
  {
    var prev := DigestAt(st.store, at);
    Loads(reached, st, t);
    var loaded := Taking(st, t, Loaded(st.version, st.head));
    Finds(reached, loaded, t, st.version, st.head, at);
    var found := Taking(loaded, t, Found(st.version, at, prev));
    Seals(reached, found, t, st.version, at, prev);
    var sealed := Taking(found, t, Sealed(st.version, at + 1)).(store := st.store[at + 1 := Seal(prev)]);
    Swaps(reached, sealed, t, at + 1, tails);
    assert Owned(Taking(sealed, t, Idle), at + 1, tails) == TakenOver(st, t, at, tails);
  }

  /** With nobody in its way, and every position up to the one it found taken as
      a search over a still store has it, a takeover leaves the log unreadable on
      one thing only: a window found, and at or below it past the manifest's seal
      a window that does not link or a seal that no takeover swapped in. */
  lemma UndisturbedTakeoverReadsIff(st: State, t: nat, at: nat, tails: nat -> nat, r: Reading)
    requires GuardedlyReached(st) && st.head <= at && at + 1 !in st.store
    requires forall k :: st.head < k <= at ==> k in st.store
    requires Reads(TakenOver(st, t, at, tails).store, at + 1, 0, r)
    ensures TakenOver(st, t, at, tails).head == at + 1
    ensures r.Read? && at + 1 <= r.last <==>
            !(HoldsWindow(st.store, at) && exists k :: st.head < k <= at && !IsLinkingWindow(st.store, k))
  {
    ReachedIsSound(st);
    GuardIsExact(st, at, DigestAt(st.store, at));
    ReadsToTheHeadIff(TakenOver(st, t, at, tails).store, at + 1, r);
    HeadIsLinked(st);
  }

  lemma Sweeps(reached: State -> bool, st: State, l: nat)
    requires IsClosed(reached) && reached(st) && IsSweeping(st, l, false)
    ensures reached(Moving(st, l, st.cursors[l].(sweep := None)))
  {
    assert Enabled(st, EndSweep(l));
  }

  lemma Probes(reached: State -> bool, st: State, l: nat, n: nat)
    requires IsClosed(reached) && reached(st) && IsSweeping(st, l, false)
    ensures var sweep := st.cursors[l].sweep.value;
            reached(Moving(st, l, st.cursors[l].(sweep := Some(sweep.(answers := sweep.answers[n := n in st.store])))))
  {
    assert Enabled(st, Probe(l, n));
  }

  lemma Fetches(reached: State -> bool, st: State, l: nat)
    requires IsClosed(reached) && reached(st) && IsSweeping(st, l, false)
    requires st.cursors[l].sweep.value.at + 1 in st.cursors[l].sweep.value.answers
    ensures reached(Moving(st, l, Fetched(st.store, st.cursors[l])))
  {
    assert Enabled(st, Fetch(l));
  }

  lemma Deletes(reached: State -> bool, st: State, l: nat)
    requires IsClosedUnderDeletes(reached) && reached(st) && IsSweeping(st, l, true)
    ensures reached(Deleted(st, l, st.cursors[l]))
  {
    assert Enabled(st, Delete(l));
  }

  lemma Dispatches(reached: State -> bool, st: State, l: nat)
    requires IsClosed(reached) && reached(st) && l in st.lines && l in st.cursors
    requires st.cursors[l].sweep.None?
    ensures reached(Dispatched(st, l, st.cursors[l]))
  {
    assert Enabled(st, Dispatch(l));
  }

  lemma Lands(reached: State -> bool, st: State, l: nat, n: nat)
    requires IsClosed(reached) && reached(st) && PutIs(st, l, n, Flying) && n !in st.store
    ensures reached(Putting(st, l, n, Landed).(store := st.store[n := WindowOf(l, st.lines[l], n)]))
  {
    assert Enabled(st, Land(l, n));
  }

  lemma Resolves(reached: State -> bool, st: State, l: nat)
    requires IsClosed(reached) && reached(st) && l in st.cursors && !st.cursors[l].failed
    requires PutIs(st, l, st.cursors[l].ack, Landed)
    ensures reached(Resolved(st, l, st.cursors[l], true))
  {
    assert Enabled(st, Resolve(l));
  }

  /** A fresh line ends its sweep, writes its first window and acknowledges
      it. */
  function FirstWindow(st: State, l: nat, at: nat, tails: nat -> nat): State {
    var n := at + 1;
    State(st.store[n := Landing(l, tails(n), Nothing)], st.version, st.head, st.lines[l := Line(at, map[n := Landed], tails)],
          st.cursors[l := Cursor(None, n + 1, n + 1, false)], st.takers, st.acked + {(l, n)})
  }

  lemma WritesFirst(reached: State -> bool, st: State, l: nat, at: nat, tails: nat -> nat)
    requires IsClosed(reached) && reached(st) && l in st.lines && l in st.cursors && at + 1 !in st.store
    requires st.lines[l] == Line(at, map[], tails)
    requires st.cursors[l] == Cursor(Some(Sweep(at, map[], false)), at + 1, at + 1, false)
    ensures reached(FirstWindow(st, l, at, tails))
  {
    var n := at + 1;
    Sweeps(reached, st, l);
    var swept := Moving(st, l, Cursor(None, n, n, false));
    Dispatches(reached, swept, l);
    var flying := Dispatched(swept, l, swept.cursors[l]);
    Lands(reached, flying, l, n);
    var landed := Putting(flying, l, n, Landed).(store := st.store[n := WindowOf(l, flying.lines[l], n)]);
    Resolves(reached, landed, l);
    assert map[n := Flying][n := Landed] == map[n := Landed];
    assert Resolved(landed, l, landed.cursors[l], true) == FirstWindow(st, l, at, tails);
  }

  // The first run: a sweep deletes what a later owner acknowledged.

  lemma SweepLosesAnAck(reached: State -> bool) returns (st: State)
    requires IsClosed(reached) && IsClosedUnderDeletes(reached) && reached(START)
    ensures reached(st) && (2, 3) in st.acked && 3 !in st.store
  {
    TakesOver(reached, START, 0, 0, Early);
    st := TakenOver(START, 0, 0, Early);
    assert st.store == map[1 := Seal(Nothing)] && st.head == 1 && st.version == 1;
    // The first owner asks about position 2, where nothing is yet.
    Probes(reached, st, 1, 2);
    st := Moving(st, 1, Cursor(Some(Sweep(1, map[2 := false], false)), 2, 2, false));
    // A rival seals there, owns the shard, and acknowledges a window.
    TakesOver(reached, st, 1, 1, Later);
    st := TakenOver(st, 1, 1, Later);
    assert st.lines[2] == Line(2, map[], Later);
    WritesFirst(reached, st, 2, 2, Later);
    st := FirstWindow(st, 2, 2, Later);
    // The first owner asks about position 3.
    Probes(reached, st, 1, 3);
    st := Moving(st, 1, Cursor(Some(Sweep(1, map[2 := false][3 := true], false)), 2, 2, false));
    Fetches(reached, st, 1);
    st := Moving(st, 1, Cursor(Some(Sweep(2, map[2 := false][3 := true], false)), 2, 2, false));
    Fetches(reached, st, 1);
    st := Moving(st, 1, Cursor(Some(Sweep(2, map[2 := false][3 := true], true)), 2, 2, false));
    Deletes(reached, st, 1);
    st := Deleted(st, 1, st.cursors[1]);
  }

  /** An acknowledged window is gone, though every request was one the code
      makes. */
  lemma AcksCanBeLost() returns (st: State)
    ensures Reached(st) && (2, 3) in st.acked && 3 !in st.store
  {
    ReachedIsClosed();
    st := SweepLosesAnAck(Reached);
  }

  ghost predicate HoldsAcked(store: Store, acked: set<(nat, nat)>) {
    forall l, n :: (l, n) in acked ==> n in store
  }

  lemma AckedIsHeld(st: State)
    requires Inv(st)
    ensures HoldsAcked(st.store, st.acked)
  {
    forall l, n | (l, n) in st.acked
      ensures n in st.store
    {
      AckedIsThere(st.store, st.lines, st.acked, l, n, n);
    }
  }

  lemma OwnerLosesNothing(st: State, a: Action)
    requires Inv(st) && Enabled(st, a) && (a.Delete? || a.Clear?) && st.version == a.line
    ensures HoldsAcked(Next(st, a).store, Next(st, a).acked)
  {
    StepKeeps(st, a);
    AckedIsHeld(Next(st, a));
  }

  lemma HoldsAckedWithoutIff(store: Store, acked: set<(nat, nat)>, n: nat)
    requires HoldsAcked(store, acked)
    ensures HoldsAcked(store - {n}, acked) <==> forall l :: (l, n) !in acked
  {
  }

  /** The first delete of a run to arrive at another owner's position is the
      first that can lose anything, and it does if and only if what stands there
      was acknowledged. */
  lemma DeleteLosesIff(st: State, a: Action)
    requires CarefullyReached(st) && Enabled(st, a) && (a.Delete? || a.Clear?)
    ensures !HoldsAcked(Next(st, a).store, Next(st, a).acked) <==>
            st.version != a.line && exists l :: (l, Gone(st, a)) in st.acked
  {
    ReachedIsRight(st);
    if st.version == a.line {
      OwnerLosesNothing(st, a);
    } else {
      AckedIsHeld(st);
      DeletingIs(st, a);
      HoldsAckedWithoutIff(st.store, st.acked, Gone(st, a));
    }
  }

  // The second run: a takeover dies between its seal and its swap, and the
  // window in flight behind the seal is taken for the head by the next.

  /** Line 1 owns the shard, with the windows of positions 2 and 3 in flight. */
  function Pipelined(): State {
    State(map[1 := Seal(Nothing)], 1, 1, map[1 := Line(1, map[2 := Flying, 3 := Flying], Early)],
          map[1 := Cursor(None, 4, 2, false)], map[0 := Idle], {})
  }

  lemma Pipelines(reached: State -> bool)
    requires IsClosed(reached) && reached(START)
    ensures reached(Pipelined())
  {
    TakesOver(reached, START, 0, 0, Early);
    var st := TakenOver(START, 0, 0, Early);
    Sweeps(reached, st, 1);
    st := Moving(st, 1, Cursor(None, 2, 2, false));
    Dispatches(reached, st, 1);
    st := Dispatched(st, 1, st.cursors[1]);
    Dispatches(reached, st, 1);
    st := Dispatched(st, 1, st.cursors[1]);
    assert st.lines[1].puts == map[2 := Flying, 3 := Flying];
    assert st.store == Pipelined().store && st.lines == Pipelined().lines && st.cursors == Pipelined().cursors;
    assert st.takers == map[0 := Idle];
    assert st == Pipelined();
  }

  /** The seal is up at 2 and its taker is never heard of again; the window of
      position 3 landed behind it. */
  function HalfTaken(): State {
    State(map[1 := Seal(Nothing), 2 := Seal(Nothing), 3 := Landing(1, 3, Window(2))], 1, 1,
          map[1 := Line(1, map[2 := Flying, 3 := Landed], Early)], map[1 := Cursor(None, 4, 2, false)],
          map[0 := Sealed(1, 2)], {})
  }

  lemma HalfTakes(reached: State -> bool)
    requires IsClosed(reached) && reached(Pipelined())
    ensures reached(HalfTaken())
  {
    var st := Pipelined();
    Loads(reached, st, 0);
    st := Taking(st, 0, Loaded(1, 1));
    Finds(reached, st, 0, 1, 1, 1);
    st := Taking(st, 0, Found(1, 1, Nothing));
    Seals(reached, st, 0, 1, 1, Nothing);
    st := Taking(st, 0, Sealed(1, 2)).(store := st.store[2 := Seal(Nothing)]);
    Lands(reached, st, 1, 3);
    st := Putting(st, 1, 3, Landed).(store := st.store[3 := WindowOf(1, st.lines[1], 3)]);
    assert st.lines[1].puts == map[2 := Flying, 3 := Landed];
    assert st.store == HalfTaken().store && st.lines == HalfTaken().lines;
    assert st.takers == map[0 := Sealed(1, 2)];
    assert st == HalfTaken();
  }

  lemma DeadTakeoverBreaks(reached: State -> bool) returns (st: State)
    requires IsClosed(reached) && reached(START)
    ensures reached(st) && (2, 5) in st.acked && st.head == 4
    ensures 3 in st.store && !Links(st.store, 3) && Linked(st.store, 2)
  {
    Pipelines(reached);
    HalfTakes(reached);
    st := HalfTaken();
    // Positions 2 and 3 are taken and 4 is not, so 3 is found to be the head.
    TakesOver(reached, st, 1, 3, Later);
    st := TakenOver(st, 1, 3, Later);
    assert st.lines[2] == Line(4, map[], Later);
    WritesFirst(reached, st, 2, 4, Later);
    st := FirstWindow(st, 2, 4, Later);
    assert Links(st.store, 1) && Links(st.store, 2);
  }

  /** The shard is wedged, in a run with no delete at all: the new owner
      acknowledges a window, and every read below it fails in every state the
      shard goes on to. */
  lemma ChainsCanBreak() returns (st: State)
    ensures CarefullyReached(st) && (2, 5) in st.acked
    ensures forall run, end, r :: Runs.After(Carefully, st, run) == Some(end) && Reads(end.store, end.head, 0, r) ==>
                                    r == Broken(3)
  {
    CarefullyReachedIsClosed();
    st := DeadTakeoverBreaks(CarefullyReached);
    forall run, end, r | Runs.After(Carefully, st, run) == Some(end) && Reads(end.store, end.head, 0, r)
      ensures r == Broken(3)
    {
      BrokenForGood(st, 3, run, end, r);
    }
  }

  // The third run: a window of a fenced line links to one sent again, a takeover
  // seals over it, and the owner puts its own there.

  ghost predicate IsClosedUnderOwnClears(reached: State -> bool) {
    forall s, n :: reached(s) && Enabled(s, Clear(s.version, n)) ==> reached(Next(s, Clear(s.version, n)))
  }

  lemma CarefullyReachedIsClosedUnderOwnClears()
    ensures IsClosedUnderOwnClears(CarefullyReached)
  {
    forall s, n | CarefullyReached(s) && Enabled(s, Clear(s.version, n))
      ensures CarefullyReached(Next(s, Clear(s.version, n)))
    {
      var run :| Runs.After(Carefully, START, run) == Some(s);
      var run', s' := Runs.Then(Carefully, START, run, s, Clear(s.version, n));
    }
  }

  /** Line 1 owns the shard, with three windows in flight. */
  function Three(): State {
    State(map[1 := Seal(Nothing)], 1, 1, map[1 := Line(1, map[2 := Flying, 3 := Flying, 4 := Flying], Early)],
          map[1 := Cursor(None, 5, 2, false)], map[0 := Idle], {})
  }

  lemma ThreeFly(reached: State -> bool)
    requires IsClosed(reached) && reached(Pipelined())
    ensures reached(Three())
  {
    Dispatches(reached, Pipelined(), 1);
    var st := Dispatched(Pipelined(), 1, Pipelined().cursors[1]);
    assert st.lines[1].puts == Three().lines[1].puts;
    assert st.lines == Three().lines && st.cursors == Three().cursors;
  }

  /** Line 2 took over and acknowledged the window it sent again at 3. Then the
      fenced line's window of 4 landed, and a third takeover took it for the
      head. */
  function Misled(): State {
    State(map[1 := Seal(Nothing), 2 := Seal(Nothing), 3 := Landing(2, 3, Nothing), 4 := Landing(1, 4, Window(3))],
          2, 2,
          map[1 := Line(1, map[2 := Flying, 3 := Flying, 4 := Landed], Early), 2 := Line(2, map[3 := Landed], Later)],
          map[1 := Cursor(None, 5, 2, false), 2 := Cursor(None, 4, 4, false)],
          map[0 := Idle, 1 := Idle, 2 := Found(2, 4, Window(4))], {(2, 3)})
  }

  /** After the takeover of line 2 and its first window. */
  function SentAgain(): State {
    State(map[1 := Seal(Nothing), 2 := Seal(Nothing), 3 := Landing(2, 3, Nothing)], 2, 2,
          map[1 := Three().lines[1], 2 := Line(2, map[3 := Landed], Later)],
          map[1 := Cursor(None, 5, 2, false), 2 := Cursor(None, 4, 4, false)],
          map[0 := Idle, 1 := Idle], {(2, 3)})
  }

  lemma SendsAgain(reached: State -> bool)
    requires IsClosed(reached) && reached(Three())
    ensures reached(SentAgain())
  {
    TakesOver(reached, Three(), 1, 1, Later);
    var st := TakenOver(Three(), 1, 1, Later);
    assert st.lines[2] == Line(2, map[], Later);
    WritesFirst(reached, st, 2, 2, Later);
    st := FirstWindow(st, 2, 2, Later);
    assert st.store == SentAgain().store && st.lines == SentAgain().lines && st.cursors == SentAgain().cursors;
    assert st.takers == SentAgain().takers && st.acked == SentAgain().acked;
  }

  lemma LateWindowLands(reached: State -> bool)
    requires IsClosed(reached) && reached(SentAgain())
    ensures reached(Misled().(takers := SentAgain().takers))
  {
    var st := SentAgain();
    Lands(reached, st, 1, 4);
    st := Putting(st, 1, 4, Landed).(store := st.store[4 := WindowOf(1, st.lines[1], 4)]);
    assert st.lines[1].puts == Misled().lines[1].puts;
    assert st.store == Misled().store && st.lines == Misled().lines;
  }

  lemma Misleads(reached: State -> bool)
    requires IsClosed(reached) && reached(Misled().(takers := SentAgain().takers))
    ensures reached(Misled())
  {
    var st := Misled().(takers := SentAgain().takers);
    Loads(reached, st, 2);
    st := Taking(st, 2, Loaded(2, 2));
    Finds(reached, st, 2, 2, 2, 4);
    st := Taking(st, 2, Found(2, 4, Window(4)));
    assert st.takers == Misled().takers;
  }

  /** The third takeover sealed, and the owner has found its position taken by a
      window that is not its own. */
  function Judged(): State {
    State(Misled().store[5 := Seal(Window(4))], 2, 2,
          Misled().lines[2 := Line(2, map[3 := Landed, 4 := Doomed], Later)],
          Misled().cursors[2 := Cursor(None, 5, 4, false)], Misled().takers[2 := Sealed(2, 5)], {(2, 3)})
  }

  lemma Judgement(reached: State -> bool, st: State, l: nat, n: nat)
    requires IsClosed(reached) && reached(st) && PutIs(st, l, n, Flying) && HoldsWindow(st.store, n)
    requires st.head == st.lines[l].sealed
    ensures reached(Putting(Putting(Putting(st, l, n, Taken), l, n, Suspect), l, n, Doomed))
  {
    assert Enabled(st, Land(l, n));
    var taken := Putting(st, l, n, Taken);
    assert Next(st, Land(l, n)) == taken && Enabled(taken, Look(l, n));
    var suspect := Putting(taken, l, n, Suspect);
    assert Next(taken, Look(l, n)) == suspect && Enabled(suspect, Check(l, n));
    assert Next(suspect, Check(l, n)) == Putting(suspect, l, n, Doomed);
  }

  lemma Judges(reached: State -> bool)
    requires IsClosed(reached) && reached(Misled())
    ensures reached(Judged())
  {
    var st := Misled();
    Seals(reached, st, 2, 2, 4, Window(4));
    st := Taking(st, 2, Sealed(2, 5)).(store := st.store[5 := Seal(Window(4))]);
    Dispatches(reached, st, 2);
    st := Dispatched(st, 2, st.cursors[2]);
    Judgement(reached, st, 2, 4);
    st := Putting(Putting(Putting(st, 2, 4, Taken), 2, 4, Suspect), 2, 4, Doomed);
    assert st.lines[2].puts == map[3 := Landed, 4 := Doomed];
    assert st.lines == Judged().lines && st.cursors == Judged().cursors && st.takers == Judged().takers;
  }

  /** The owner cleared the position, put its own window there and acknowledged
      it. */
  function Replaced(): State {
    State(Judged().store[4 := Landing(2, 104, Window(3))], 2, 2,
          Judged().lines[2 := Line(2, map[3 := Landed, 4 := Landed], Later)],
          Judged().cursors[2 := Cursor(None, 5, 5, false)], Judged().takers, {(2, 3), (2, 4)})
  }

  lemma Clears(reached: State -> bool, st: State, n: nat)
    requires IsClosedUnderOwnClears(reached) && reached(st) && PutIs(st, st.version, n, Doomed)
    ensures reached(Cleared(st, st.version, n))
  {
    assert Enabled(st, Clear(st.version, n));
  }

  lemma Reputs(reached: State -> bool, st: State, l: nat, n: nat)
    requires IsClosed(reached) && reached(st) && PutIs(st, l, n, Again) && n !in st.store
    ensures reached(Putting(st, l, n, Landed).(store := st.store[n := WindowOf(l, st.lines[l], n)]))
  {
    assert Enabled(st, Reput(l, n));
  }

  lemma Replaces(reached: State -> bool)
    requires IsClosed(reached) && IsClosedUnderOwnClears(reached) && reached(Judged())
    ensures reached(Replaced())
  {
    var st := Judged();
    Clears(reached, st, 4);
    st := Cleared(st, 2, 4);
    Reputs(reached, st, 2, 4);
    st := Putting(st, 2, 4, Landed).(store := st.store[4 := WindowOf(2, st.lines[2], 4)]);
    assert st.store == Replaced().store;
    assert st.lines[2].puts == map[3 := Landed, 4 := Landed];
    assert st.lines == Replaced().lines;
    Resolves(reached, st, 2);
    st := Resolved(st, 2, st.cursors[2], true);
    assert st.cursors == Replaced().cursors && st.acked == Replaced().acked;
  }

  lemma SwapBreaks(reached: State -> bool) returns (st: State)
    requires IsClosed(reached) && reached(Replaced())
    ensures reached(st) && (2, 4) in st.acked && st.head == 5 && st.store == Replaced().store
  {
    Swaps(reached, Replaced(), 2, 5, Later);
    st := Owned(Taking(Replaced(), 2, Idle), 5, Later);
  }

  lemma BrokenStore(st: State)
    requires st.store == Replaced().store
    ensures 0 !in st.store && {1, 2, 3, 4, 5} <= st.store.Keys
    ensures st.store[1] == Seal(Nothing) && st.store[2] == Seal(Nothing) && st.store[3] == Landing(2, 3, Nothing)
    ensures st.store[4] == Landing(2, 104, Window(3)) && st.store[5] == Seal(Window(4))
  {
  }

  lemma ReplacedIsBroken(st: State)
    requires st.store == Replaced().store && st.head == 5
    ensures IsBrokenAt(st, 5)
  {
    BrokenStore(st);
    assert Links(st.store, 1) && Links(st.store, 2) && Links(st.store, 3) && Links(st.store, 4);
  }

  /** A window sent again is enough: every seal of this run linked when it was
      put, the last over a window that is not the owner's, every delete was the
      owner's, and every read fails for good below what was acknowledged. */
  lemma ResendsCanBreak() returns (st: State)
    ensures CarefullyReached(Misled()) && LooksSealable(Misled().store, Misled().head, 4, Window(4))
    ensures !MayBeSealed(Misled(), 4, Window(4)) && !NoneResent(2, 2, Misled().lines)
    ensures CarefullyReached(st) && (2, 4) in st.acked
    ensures forall run, end, r :: Runs.After(Carefully, st, run) == Some(end) && Reads(end.store, end.head, 0, r) ==>
                                    r == Broken(5)
  {
    CarefullyReachedIsClosed();
    CarefullyReachedIsClosedUnderOwnClears();
    Pipelines(CarefullyReached);
    ThreeFly(CarefullyReached);
    SendsAgain(CarefullyReached);
    LateWindowLands(CarefullyReached);
    Misleads(CarefullyReached);
    Judges(CarefullyReached);
    Replaces(CarefullyReached);
    st := SwapBreaks(CarefullyReached);
    ReplacedIsBroken(st);
    LooksRight();
    forall run, end, r | Runs.After(Carefully, st, run) == Some(end) && Reads(end.store, end.head, 0, r)
      ensures r == Broken(5)
    {
      BrokenForGood(st, 5, run, end, r);
    }
  }

  lemma LooksRight()
    ensures LooksSealable(Misled().store, Misled().head, 4, Window(4))
    ensures !MayBeSealed(Misled(), 4, Window(4)) && !NoneResent(2, 2, Misled().lines)
  {
    var store := Misled().store;
    assert IsLinkingWindow(store, 3) && IsLinkingWindow(store, 4);
    assert !IsLinesWindow(store, 2, 4);
    assert Resends(Misled().lines[2], Misled().lines[1], 3);
  }
}
