/** Cpu time, read by a thread that is not the one spending it.

    The isolate's thread says when a poll begins and ends with two words,
    `spent` and `entered`, and a watchdog adds them up without a lock. Every
    load, store, swap, add and clock read is a step of its own here, so a
    watchdog's reading may straddle any number of polls. The history of the
    polls and of what each watchdog saw rides along in the state so that a
    reading can be compared with the time really spent. */
module CpuClock {
  import opened Wrappers
  import opened WatchCells
  import opened Runs

  /** One stretch of running: when it began and, once it has ended, when. */
  datatype Poll = Poll(start: nat, stop: Option<nat>)

  /** Where the isolate's own thread is. */
  datatype Phase =
    | Idle
    | Entering(read: nat)
    | Running
    | Leaving(started: nat)
    | Adding(amount: nat)
    | Clearing

  /** Where one watchdog is in its reading. `call` and `moves` say during which
      call and after how many steps of the isolate it began, `counted` how
      many polls the first load covered, `running` which poll the second load
      saw, and `truth` how much had really been polled when it saw it. */
  datatype Look =
    | LoadedSpent(spent: nat, call: nat, moves: nat, counted: nat)
    | LoadedEntered(spent: nat, call: nat, moves: nat, counted: nat,
                    entered: nat, at: nat, running: nat, truth: nat)
    | Told(time: nat, call: nat, moves: nat, counted: nat,
           entered: nat, at: nat, running: nat, truth: nat, read: nat)

  datatype State = State(
    cells: Cells, now: nat, phase: Phase, polls: seq<Poll>,
    call: nat, moves: nat, looks: map<nat, Look>)

  datatype Action =
    | Tick(gap: nat)
    | ReadClockToEnter
    | StoreEnter
    | SwapToLeave
    | ReadClockToLeave
    | AddToSpent
    | RestartSpent
    | RestartEntered
    | LookAtSpent(dog: nat)
    | LookAtEntered(dog: nat)
    | LookAtClock(dog: nat)

  ghost predicate Init(st: State) {
    && st.cells.spent == 0
    && st.cells.entered == 0
    && st.phase == Idle
    && st.polls == []
    && st.looks == map[]
  }

  predicate Enabled(st: State, a: Action) {
    match a
    case Tick(_) => true
    case ReadClockToEnter => st.phase.Idle?
    case StoreEnter => st.phase.Entering?
    case SwapToLeave => st.phase.Running?
    case ReadClockToLeave => st.phase.Leaving? && st.polls != []
    case AddToSpent => st.phase.Adding?
    case RestartSpent => st.phase.Idle?
    case RestartEntered => st.phase.Clearing?
    case LookAtSpent(dog) => true
    case LookAtEntered(dog) => dog in st.looks && st.looks[dog].LoadedSpent?
    case LookAtClock(dog) => dog in st.looks && st.looks[dog].LoadedEntered?
  }

  function Next(st: State, a: Action): State
    requires Enabled(st, a)
  {
    match a
    case Tick(gap) => st.(now := st.now + gap)
    case ReadClockToEnter =>
      st.(phase := Entering(st.now), moves := st.moves + 1)
    case StoreEnter =>
      var cells := StoreEntered(st.cells, st.phase.read);
      st.(cells := cells, phase := Running, moves := st.moves + 1,
          polls := st.polls + [Poll(cells.entered, None)])
    case SwapToLeave =>
      // A swap that finds nothing running is the end of the story.
      if st.cells.entered == 0 then st.(phase := Idle, moves := st.moves + 1)
      else st.(cells := SwapEntered(st.cells), phase := Leaving(st.cells.entered), moves := st.moves + 1)
    case ReadClockToLeave =>
      var last := |st.polls| - 1;
      st.(phase := Adding(Monus(st.now, st.phase.started)), moves := st.moves + 1,
          polls := st.polls[last := st.polls[last].(stop := Some(st.now))])
    case AddToSpent =>
      st.(cells := AddSpent(st.cells, st.phase.amount), phase := Idle, moves := st.moves + 1)
    case RestartSpent =>
      st.(cells := ZeroSpent(st.cells), phase := Clearing, moves := st.moves + 1,
          polls := [], call := st.call + 1)
    case RestartEntered =>
      st.(cells := SwapEntered(st.cells), phase := Idle, moves := st.moves + 1)
    case LookAtSpent(dog) =>
      st.(looks := st.looks[dog := LoadedSpent(st.cells.spent, st.call, st.moves, Credited(st))])
    case LookAtEntered(dog) =>
      var look := st.looks[dog];
      var entered := st.cells.entered;
      st.(looks := st.looks[dog :=
        if entered == 0 then
          Told(look.spent, look.call, look.moves, look.counted, 0, st.now, |st.polls|, Polled(st), st.now)
        else
          LoadedEntered(look.spent, look.call, look.moves, look.counted,
                        entered, st.now, Monus(|st.polls|, 1), Polled(st))])
    case LookAtClock(dog) =>
      var look := st.looks[dog];
      st.(looks := st.looks[dog :=
        Told(look.spent + Monus(st.now, look.entered), look.call, look.moves, look.counted,
             look.entered, look.at, look.running, look.truth, st.now)])
  }

  function Step(st: State, a: Action): Option<State> {
    if Enabled(st, a) then Some(Next(st, a)) else None
  }

  // What was really spent.

  /** How long one poll has run by `now`. */
  function Length(p: Poll, now: nat): nat {
    Monus(match p.stop case None => now case Some(stop) => stop, p.start)
  }

  function Total(polls: seq<Poll>, now: nat): nat {
    if polls == [] then 0
    else Total(polls[..|polls| - 1], now) + Length(polls[|polls| - 1], now)
  }

  /** The time the isolate has been polled in this call, the poll that is
      running included. */
  function Polled(st: State): nat {
    Total(st.polls, st.now)
  }

  /** How many of the polls `spent` already holds: all of them, but for one
      that is running or has ended and is not added yet. */
  function Credited(st: State): nat {
    match st.phase
    case Idle => |st.polls|
    case Entering(_) => |st.polls|
    case Clearing => |st.polls|
    case Running => Monus(|st.polls|, 1)
    case Leaving(_) => Monus(|st.polls|, 1)
    case Adding(_) => Monus(|st.polls|, 1)
  }

  // The invariant.

  ghost predicate Closed(polls: seq<Poll>, n: nat) {
    && n <= |polls|
    && forall i :: 0 <= i < n ==> polls[i].stop.Some?
  }

  ghost predicate IsolateInv(st: State) {
    var n := |st.polls|;
    && (st.phase.Running? || st.phase.Leaving? || st.phase.Adding? ==> n > 0)
    && Closed(st.polls, if st.phase.Running? || st.phase.Leaving? then n - 1 else n)
    && st.cells.spent == Total(st.polls[..Credited(st)], st.now)
    && (match st.phase
        case Running => st.polls[n - 1] == Poll(st.cells.entered, None) && st.cells.entered != 0
        case Leaving(started) => st.polls[n - 1] == Poll(started, None) && st.cells.entered == 0
        case Adding(amount) => st.cells.entered == 0 && amount == Length(st.polls[n - 1], st.now)
        case _ => st.cells.entered == 0)
  }

  /** What a reading is worth while the call it began in goes on. */
  ghost predicate LookInv(st: State, look: Look) {
    && look.call <= st.call
    && look.moves <= st.moves
    && (look.moves == st.moves ==> look.call == st.call)
    && (look.call == st.call ==>
          && look.counted <= |st.polls|
          && Closed(st.polls, look.counted)
          && var counted := Total(st.polls[..look.counted], st.now);
          match look
          case LoadedSpent(spent, _, moves, _) =>
            && spent == counted
            && (moves == st.moves ==> look.counted == Credited(st))
          case LoadedEntered(spent, _, moves, _, entered, at, running, truth) =>
            && spent == counted
            && look.counted <= running < |st.polls|
            && st.polls[running].start == entered != 0
            && at <= st.now
            && spent + Monus(at, entered) <= truth <= Polled(st)
            && (moves == st.moves ==> st.phase.Running? && look.counted == Credited(st))
          case Told(time, _, _, _, entered, at, running, truth, read) =>
            && at <= read <= st.now
            && time == counted + (if entered == 0 then 0 else Monus(read, entered))
            && (entered != 0 ==> look.counted <= running < |st.polls| && st.polls[running].start == entered)
            && time <= truth + (read - at)
            && truth <= Polled(st))
  }

  ghost predicate Inv(st: State) {
    && IsolateInv(st)
    && forall dog :: dog in st.looks ==> LookInv(st, st.looks[dog])
  }

  // Sums of polls.

  /** Polls that have ended are worth the same however late it is. */
  lemma {:induction false} ClosedTotal(a: seq<Poll>, b: seq<Poll>, k: nat, now: nat, later: nat)
    requires Closed(a, k)
    requires k <= |b| && a[..k] == b[..k]
    ensures Total(a[..k], now) == Total(b[..k], later)
  {
    if k > 0 {
      assert a[..k][..k - 1] == a[..k - 1] && b[..k][..k - 1] == b[..k - 1];
      assert a[k - 1] == a[..k][k - 1];
      ClosedTotal(a, b, k - 1, now, later);
    }
  }

  lemma {:induction false} LaterIsMore(polls: seq<Poll>, now: nat, later: nat)
    requires now <= later
    ensures Total(polls, now) <= Total(polls, later)
  {
    if polls != [] {
      LaterIsMore(polls[..|polls| - 1], now, later);
    }
  }

  lemma {:induction false} PrefixIsLess(polls: seq<Poll>, k: nat, now: nat)
    requires k <= |polls|
    ensures Total(polls[..k], now) <= Total(polls, now)
  {
    if k == |polls| {
      assert polls[..k] == polls;
    } else {
      assert polls[..|polls| - 1][..k] == polls[..k];
      PrefixIsLess(polls[..|polls| - 1], k, now);
    }
  }

  // Every step keeps the invariant.

  /** A later state of the same call: polls are added and ended, never
      reordered, and the time polled only grows. */
  ghost predicate Extends(st: State, st': State) {
    && st.call == st'.call
    && st.now <= st'.now
    && st.moves <= st'.moves
    && |st.polls| <= |st'.polls|
    && (forall i :: 0 <= i < |st.polls| ==>
          st'.polls[i].start == st.polls[i].start && (st.polls[i].stop.Some? ==> st'.polls[i] == st.polls[i]))
    && Polled(st) <= Polled(st')
  }

  lemma TickStep(st: State, a: Action)
    requires IsolateInv(st) && Enabled(st, a) && a.Tick?
    ensures IsolateInv(Next(st, a)) && Extends(st, Next(st, a))
  {
    var st' := Next(st, a);
    LaterIsMore(st.polls, st.now, st'.now);
    ClosedTotal(st.polls, st.polls, Credited(st), st.now, st'.now);
  }

  lemma EnterStep(st: State)
    requires IsolateInv(st) && Enabled(st, StoreEnter)
    ensures IsolateInv(Next(st, StoreEnter)) && Extends(st, Next(st, StoreEnter))
  {
    var n := |st.polls|;
    assert Next(st, StoreEnter).polls[..n] == st.polls == st.polls[..n];
  }

  lemma LeaveStep(st: State)
    requires IsolateInv(st) && Enabled(st, ReadClockToLeave)
    ensures IsolateInv(Next(st, ReadClockToLeave)) && Extends(st, Next(st, ReadClockToLeave))
  {
    var n := |st.polls|;
    assert Next(st, ReadClockToLeave).polls[..n - 1] == st.polls[..n - 1];
  }

  lemma AddStep(st: State)
    requires IsolateInv(st) && Enabled(st, AddToSpent)
    ensures IsolateInv(Next(st, AddToSpent)) && Extends(st, Next(st, AddToSpent))
  {
    assert st.polls[..|st.polls|] == st.polls;
  }

  lemma IsolateStep(st: State, a: Action)
    requires IsolateInv(st) && Enabled(st, a)
    ensures IsolateInv(Next(st, a))
    ensures !a.RestartSpent? ==> Extends(st, Next(st, a))
  {
    match a {
      case Tick(_) => TickStep(st, a);
      case StoreEnter => EnterStep(st);
      case ReadClockToLeave => LeaveStep(st);
      case AddToSpent => AddStep(st);
      case _ =>
    }
  }

  lemma LookKept(st: State, st': State, look: Look)
    requires IsolateInv(st) && LookInv(st, look)
    requires Extends(st, st')
    requires st.moves == st'.moves ==> st.phase == st'.phase && |st.polls| == |st'.polls|
    ensures LookInv(st', look)
  {
    if look.call == st.call {
      assert st.polls[..look.counted] == st'.polls[..look.counted];
      ClosedTotal(st.polls, st'.polls, look.counted, st.now, st'.now);
    }
  }

  lemma SpentLook(st: State, dog: nat)
    requires Inv(st) && Enabled(st, LookAtSpent(dog))
    ensures LookInv(Next(st, LookAtSpent(dog)), Next(st, LookAtSpent(dog)).looks[dog])
  {
    PrefixIsLess(st.polls, Credited(st), st.now);
  }

  lemma EnteredLook(st: State, dog: nat)
    requires Inv(st) && Enabled(st, LookAtEntered(dog))
    ensures LookInv(Next(st, LookAtEntered(dog)), Next(st, LookAtEntered(dog)).looks[dog])
  {
    var n := |st.polls|;
    var look := st.looks[dog];
    if look.call == st.call {
      PrefixIsLess(st.polls, look.counted, st.now);
      if st.cells.entered != 0 {
        PrefixIsLess(st.polls[..n - 1], look.counted, st.now);
        assert st.polls[..n - 1][..look.counted] == st.polls[..look.counted];
      }
    }
  }

  lemma ClockLook(st: State, dog: nat)
    requires Inv(st) && Enabled(st, LookAtClock(dog))
    ensures LookInv(Next(st, LookAtClock(dog)), Next(st, LookAtClock(dog)).looks[dog])
  {
  }

  /** A watchdog's own step, which changes nothing but what it has seen. */
  lemma LookStep(st: State, a: Action, dog: nat)
    requires Inv(st) && Enabled(st, a)
    requires a == LookAtSpent(dog) || a == LookAtEntered(dog) || a == LookAtClock(dog)
    ensures LookInv(Next(st, a), Next(st, a).looks[dog])
  {
    match a
    case LookAtSpent(_) => SpentLook(st, dog);
    case LookAtEntered(_) => EnteredLook(st, dog);
    case LookAtClock(_) => ClockLook(st, dog);
  }

  lemma StepKeepsInv(st: State, a: Action)
    requires Inv(st) && Enabled(st, a)
    ensures Inv(Next(st, a))
  {
    var st' := Next(st, a);
    IsolateStep(st, a);
    forall dog | dog in st'.looks
      ensures LookInv(st', st'.looks[dog])
    {
      if a == LookAtSpent(dog) || a == LookAtEntered(dog) || a == LookAtClock(dog) {
        LookStep(st, a, dog);
      } else {
        assert dog in st.looks && st'.looks[dog] == st.looks[dog];
        if !a.RestartSpent? {
          LookKept(st, st', st.looks[dog]);
        }
      }
    }
  }

  lemma Reachable(st: State, run: seq<Action>)
    requires Init(st) && After(Step, st, run).Some?
    ensures Inv(After(Step, st, run).value)
  {
    forall s, a | Inv(s) && Step(s, a).Some?
      ensures Inv(Step(s, a).value)
    {
      StepKeepsInv(s, a);
    }
    Always(Step, s => Inv(s), st, run);
  }

  // What a watchdog's reading is worth.

  /** In every interleaving, a reading made within one call adds up polls that
      are all different: the ones the first load covered, each of them over,
      and at most one later one that was running at the second load. It
      exceeds what had been polled at that load by no more than the gap until
      the clock was read. */
  lemma ReadingNeverOvercounts(st: State, run: seq<Action>, end: State, dog: nat)
    requires Init(st) && After(Step, st, run) == Some(end)
    requires dog in end.looks && end.looks[dog].Told?
    requires end.looks[dog].call == end.call
    ensures
      var look := end.looks[dog];
      && look.counted <= |end.polls|
      && Closed(end.polls, look.counted)
      && (look.entered != 0 ==> look.counted <= look.running < |end.polls|
                                && end.polls[look.running].start == look.entered)
      && look.time == Total(end.polls[..look.counted], end.now)
                      + (if look.entered == 0 then 0 else Monus(look.read, look.entered))
      && look.time <= look.truth + (look.read - look.at)
      && look.truth <= Polled(end)
  {
    Reachable(st, run);
    assert LookInv(end, end.looks[dog]);
  }

  /** The poll that has ended without being added to the total yet. */
  function InTransit(st: State): nat {
    if (st.phase.Leaving? || st.phase.Adding?) && st.polls != []
    then Length(st.polls[|st.polls| - 1], st.now) else 0
  }

  /** A reading the isolate's thread took no step during is exact, but for a
      poll caught between its swap and its add. A function that never gives
      the thread back is in neither place, so its time is read to the
      nanosecond. */
  lemma UndisturbedReadingIsExact(st: State, run: seq<Action>, end: State, a: Action, dog: nat)
    requires Init(st) && After(Step, st, run) == Some(end)
    requires a == LookAtEntered(dog) || a == LookAtClock(dog)
    requires Enabled(end, a)
    requires end.looks[dog].moves == end.moves
    requires Next(end, a).looks[dog].Told?
    ensures Polled(end) == Next(end, a).looks[dog].time + InTransit(end)
    ensures end.phase.Running? ==> Next(end, a).looks[dog].time == Polled(end)
  {
    Reachable(st, run);
    assert LookInv(end, end.looks[dog]);
    var n := |end.polls|;
    if Credited(end) == n {
      assert end.polls[..n] == end.polls;
    }
  }

  /** The second load and the clock, with nothing in between. */
  function Finished(st: State, dog: nat): State
    requires dog in st.looks && st.looks[dog].LoadedSpent?
  {
    var loaded := Next(st, LookAtEntered(dog));
    if loaded.looks[dog].Told? then loaded else Next(loaded, LookAtClock(dog))
  }

  lemma {:induction false} PolledIs(st: State)
    requires IsolateInv(st)
    ensures Polled(st) == st.cells.spent + InTransit(st)
                          + if st.phase.Running? then Monus(st.now, st.cells.entered) else 0
  {
    var n := |st.polls|;
    if Credited(st) == n {
      assert st.polls[..n] == st.polls;
    }
  }

  /** However long ago its first load was, and whatever calls began since, a
      reading is off by what it loaded against what is spent and in transit now.
      So one that a `restart` came into is right if and only if the new call has
      spent exactly what the old one had, and in the first poll of the new call
      it is too much by all of what it loaded. */
  lemma ReadingIsRightIff(st: State, run: seq<Action>, end: State, dog: nat)
    requires Init(st) && After(Step, st, run) == Some(end)
    requires dog in end.looks && end.looks[dog].LoadedSpent?
    ensures Finished(end, dog).looks[dog].Told?
    ensures var time, loaded := Finished(end, dog).looks[dog].time, end.looks[dog].spent;
            && time + end.cells.spent + InTransit(end) == Polled(end) + loaded
            && (time == Polled(end) <==> loaded == end.cells.spent + InTransit(end))
            && (end.phase.Running? && |end.polls| == 1 ==> time == Polled(end) + loaded)
  {
    Reachable(st, run);
    PolledIs(end);
  }

  /** With a `restart` between its two loads a watchdog adds the last call's
      total to this call's poll: here it reports ten nanoseconds the moment
      the clock is read, out of a call that has been polled for none. */
  lemma RestartBetweenLoadsOvercounts(st: State, dog: nat) returns (run: seq<Action>, end: State)
    requires Init(st) && st.now == 1
    ensures After(Step, st, run) == Some(end)
    ensures dog in end.looks && end.looks[dog].Told?
    ensures end.looks[dog].read == end.looks[dog].at
    ensures end.looks[dog].time == 10 && Polled(end) == 0
  {
    run, end := TenNanosecondsRead(st, dog);
    run, end := Then(Step, st, run, end, RestartSpent);
    run, end := Then(Step, st, run, end, RestartEntered);
    run, end := Then(Step, st, run, end, ReadClockToEnter);
    run, end := Then(Step, st, run, end, StoreEnter);
    assert end.polls == [Poll(11, None)];
    run, end := Then(Step, st, run, end, LookAtEntered(dog));
    run, end := Then(Step, st, run, end, LookAtClock(dog));
    assert Polled(end) == Total(end.polls[..0], end.now) + Length(end.polls[0], end.now);
  }

  /** A call polled from one to eleven, with its total just read. */
  lemma TenNanosecondsRead(st: State, dog: nat) returns (run: seq<Action>, end: State)
    requires Init(st) && st.now == 1
    ensures After(Step, st, run) == Some(end)
    ensures end.phase == Idle && end.now == 11 && end.cells.entered == 0
    ensures dog in end.looks && end.looks[dog].LoadedSpent? && end.looks[dog].spent == 10
  {
    run, end := [], st;
    run, end := Then(Step, st, run, end, ReadClockToEnter);
    run, end := Then(Step, st, run, end, StoreEnter);
    run, end := Then(Step, st, run, end, Tick(10));
    run, end := Then(Step, st, run, end, SwapToLeave);
    run, end := Then(Step, st, run, end, ReadClockToLeave);
    run, end := Then(Step, st, run, end, AddToSpent);
    run, end := Then(Step, st, run, end, LookAtSpent(dog));
  }
}
