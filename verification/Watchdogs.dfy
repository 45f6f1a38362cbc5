/** The threads that watch a call, and who stops it.

    Four kinds of thread record a limit in the one cell that says which limit
    was reached: the allocator when it refuses, v8's heap callback, the
    collection a watchdog asked for, and the watchdogs themselves. All but
    the allocator also terminate the isolate when their record was the one
    that counted. Every atomic instruction is a step, the clock comparisons
    are free choices of the actions, and any number of watchdogs may be about,
    since one that is dropped is not joined. */
module Watchdogs {
  import opened Wrappers
  import opened WatchCells
  import opened Runs

  datatype Why = Disconnected | IsolateGone | SawLimit | WonRecord | LostRecord

  /** Where one watchdog is in its loop. */
  datatype Dog =
    | Waiting
    | Checking
    | Asking
    | Alerting(due: seq<Warning>)
    | Telling(what: Warning, wonIn: nat, due: seq<Warning>)
    | Recording(over: Limit)
    | Terminating(why: Why)
    | Gone(why: Why)

  datatype Collector = Resting | Requested | Stopping | Finishing

  datatype Recorder = Allocator | Heap | Collection | Watchdog(dog: nat)

  /** One attempt to record a limit. */
  datatype Attempt = Attempt(who: Recorder, what: Limit, won: bool)

  /** One warning handed to the function: the call it was won in and the call
      it was handed over in. */
  datatype Sent = Sent(what: Warning, wonIn: nat, sentIn: nat)

  datatype State = State(
    cells: Cells, call: nat, dogs: map<nat, Dog>, collector: Collector, heapStopping: bool,
    terminated: bool, attempts: seq<Attempt>, won: set<Key>, sent: seq<Sent>)

  datatype Action =
    | Spawn(dog: nat)
    | Disconnect(dog: nat)
    | Wake(dog: nat)
    | Check(dog: nat)
    | Ask(dog: nat, over: bool, alive: bool, wall: bool, cpu: bool, memory: bool)
    | First(dog: nat)
    | Tell(dog: nat)
    | Decide(dog: nat, wall: bool, cpu: bool)
    | RecordOver(dog: nat)
    | Terminate(dog: nat)
    | Refuse
    | HeapRecord
    | HeapTerminate
    | CollectRecord(over: bool)
    | CollectTerminate
    | CollectDone
    | Restart

  ghost predicate Init(st: State) {
    && st.cells.hit == None && st.cells.warned == 0 && !st.cells.collecting
    && st.dogs == map[] && st.collector == Resting && !st.heapStopping
    && !st.terminated && st.attempts == [] && st.won == {} && st.sent == []
  }

  predicate Enabled(st: State, a: Action) {
    match a
    case Spawn(dog) => dog !in st.dogs
    case Disconnect(dog) => dog in st.dogs && st.dogs[dog].Waiting?
    case Wake(dog) => dog in st.dogs && st.dogs[dog].Waiting?
    case Check(dog) => dog in st.dogs && st.dogs[dog].Checking?
    case Ask(dog, _, _, _, _, _) => dog in st.dogs && st.dogs[dog].Asking?
    case First(dog) => dog in st.dogs && st.dogs[dog].Alerting? && st.dogs[dog].due != []
    case Tell(dog) => dog in st.dogs && st.dogs[dog].Telling?
    case Decide(dog, _, _) => dog in st.dogs && st.dogs[dog] == Alerting([])
    case RecordOver(dog) => dog in st.dogs && st.dogs[dog].Recording?
    case Terminate(dog) => dog in st.dogs && st.dogs[dog].Terminating?
    case Refuse => true
    case HeapRecord => true
    case HeapTerminate => st.heapStopping
    case CollectRecord(_) => st.collector.Requested?
    case CollectTerminate => st.collector.Stopping?
    case CollectDone => st.collector.Finishing?
    case Restart => true
  }

  /** The compare and exchange, with the attempt written down. */
  function Record(st: State, who: Recorder, what: Limit): State {
    st.(cells := CasHit(st.cells, what),
        attempts := st.attempts + [Attempt(who, what, st.cells.hit == None)])
  }

  function Move(st: State, dog: nat, to: Dog): State {
    st.(dogs := st.dogs[dog := to])
  }

  /** The warnings that are due, in the order the watchdog asks about them. */
  function Due(wall: bool, cpu: bool, memory: bool): seq<Warning> {
    (if wall then [NearWall] else []) + (if cpu then [NearCpu] else []) + (if memory then [NearMemory] else [])
  }

  function Next(st: State, a: Action): State
    requires Enabled(st, a)
  {
    match a
    case Spawn(dog) => Move(st, dog, Waiting)
    case Disconnect(dog) => Move(st, dog, Gone(Disconnected))
    case Wake(dog) => Move(st, dog, Checking)
    case Check(dog) => Move(st, dog, if st.cells.hit.Some? then Terminating(SawLimit) else Asking)
    case Ask(dog, over, alive, wall, cpu, memory) =>
      var wants := over && !st.cells.collecting;
      var asked := if wants then st.(cells := st.cells.(collecting := true)) else st;
      if wants && !alive then Move(asked, dog, Gone(IsolateGone))
      else Move(if wants then asked.(collector := Requested) else asked, dog, Alerting(Due(wall, cpu, memory)))
    case First(dog) =>
      var due := st.dogs[dog].due;
      var told := st.(cells := OrWarned(st.cells, due[0]));
      if Warned(st.cells.warned, due[0]) then Move(told, dog, Alerting(due[1..]))
      else Move(told.(won := st.won + {Key(st.call, due[0])}), dog, Telling(due[0], st.call, due[1..]))
    case Tell(dog) =>
      var d := st.dogs[dog];
      Move(st.(sent := st.sent + [Sent(d.what, d.wonIn, st.call)]), dog, Alerting(d.due))
    case Decide(dog, wall, cpu) =>
      Move(st, dog, if wall then Recording(Wall) else if cpu then Recording(Cpu) else Waiting)
    case RecordOver(dog) =>
      Move(Record(st, Watchdog(dog), st.dogs[dog].over), dog,
           if st.cells.hit == None then Terminating(WonRecord) else Gone(LostRecord))
    case Terminate(dog) => Move(st.(terminated := true), dog, Gone(st.dogs[dog].why))
    case Refuse => Record(st, Allocator, Memory)
    case HeapRecord =>
      Record(st, Heap, Memory).(heapStopping := st.heapStopping || st.cells.hit == None)
    case HeapTerminate => st.(terminated := true, heapStopping := false)
    case CollectRecord(over) =>
      if !over then st.(collector := Finishing)
      else Record(st, Collection, Memory).(collector := if st.cells.hit == None then Stopping else Finishing)
    case CollectTerminate => st.(terminated := true, collector := Finishing)
    case CollectDone => st.(collector := Resting, cells := st.cells.(collecting := false))
    case Restart => st.(cells := ZeroWarned(st.cells), call := st.call + 1)
  }

  function Step(st: State, a: Action): Option<State> {
    if Enabled(st, a) then Some(Next(st, a)) else None
  }

  /** The actions of one watchdog. */
  predicate IsDogs(a: Action) {
    || a.Spawn? || a.Disconnect? || a.Wake? || a.Check? || a.Ask? || a.First? || a.Tell? || a.Decide?
    || a.RecordOver? || a.Terminate?
  }

  /** A step moves one watchdog at most. */
  lemma OneDogMoves(st: State, a: Action)
    requires Enabled(st, a)
    ensures IsDogs(a) ==> a.dog in Next(st, a).dogs && Next(st, a).dogs == st.dogs[a.dog := Next(st, a).dogs[a.dog]]
    ensures !IsDogs(a) ==> Next(st, a).dogs == st.dogs
  {
  }

  // The first limit reached is the one reported.

  ghost predicate FirstWins(st: State) {
    && (forall i :: 0 <= i < |st.attempts| ==> (st.attempts[i].won <==> i == 0))
    && st.cells.hit == if st.attempts == [] then None else Some(st.attempts[0].what)
  }

  /** A step either makes one attempt to record or leaves the cell alone. */
  lemma HitStep(st: State, a: Action)
    requires Enabled(st, a)
    ensures var st' := Next(st, a);
            || (st'.cells.hit == st.cells.hit && st'.attempts == st.attempts)
            || exists who, what :: st'.cells.hit == Record(st, who, what).cells.hit
                                   && st'.attempts == Record(st, who, what).attempts
    ensures st.cells.hit.Some? ==> Next(st, a).cells.hit == st.cells.hit
  {
    var st' := Next(st, a);
    match a {
      case RecordOver(dog) => assert st'.attempts == Record(st, Watchdog(dog), st.dogs[dog].over).attempts;
      case Refuse => assert st'.attempts == Record(st, Allocator, Memory).attempts;
      case HeapRecord => assert st'.attempts == Record(st, Heap, Memory).attempts;
      case CollectRecord(over) => assert over ==> st'.attempts == Record(st, Collection, Memory).attempts;
      case _ =>
    }
  }

  /** In every run, across every recorder and any number of restarts, the
      first attempt to record succeeds, no other does, and what is reported is
      what that first one said. */
  lemma ExactlyTheFirstRecordWins(st: State, run: seq<Action>, end: State)
    requires Init(st) && After(Step, st, run) == Some(end)
    ensures forall i :: 0 <= i < |end.attempts| ==> (end.attempts[i].won <==> i == 0)
    ensures end.cells.hit == if end.attempts == [] then None else Some(end.attempts[0].what)
  {
    forall s, a | FirstWins(s) && Step(s, a).Some?
      ensures FirstWins(Step(s, a).value)
    {
      HitStep(s, a);
    }
    Always(Step, s => FirstWins(s), st, run);
  }

  /** Once reached, the same limit is reported for ever. */
  lemma ReachedNeverChanges(st: State, run: seq<Action>, mid: State, more: seq<Action>, end: State)
    requires Init(st) && After(Step, st, run) == Some(mid)
    requires After(Step, mid, more) == Some(end)
    requires mid.cells.hit.Some?
    ensures end.cells.hit == mid.cells.hit
  {
    var hit := mid.cells.hit;
    forall s: State, a: Action | s.cells.hit == hit && Step(s, a).Some?
      ensures Step(s, a).value.cells.hit == hit
    {
      HitStep(s, a);
    }
    Always(Step, (s: State) => s.cells.hit == hit, mid, more);
  }

  /** What each recorder can say. */
  predicate IsSayable(a: Attempt) {
    if a.who.Watchdog? then a.what == Wall || a.what == Cpu else a.what == Memory
  }

  ghost predicate AreSayable(st: State) {
    && (forall i :: 0 <= i < |st.attempts| ==> IsSayable(st.attempts[i]))
    && (forall d :: d in st.dogs && st.dogs[d].Recording? ==> st.dogs[d].over == Wall || st.dogs[d].over == Cpu)
  }

  lemma AttemptsGrow(st: State, a: Action)
    requires Enabled(st, a)
    ensures Next(st, a).attempts == st.attempts
            || (&& |Next(st, a).attempts| == |st.attempts| + 1
                && Next(st, a).attempts[..|st.attempts|] == st.attempts
                && var last := Next(st, a).attempts[|st.attempts|];
                   (a.RecordOver? && last.who == Watchdog(a.dog) && last.what == st.dogs[a.dog].over)
                   || (!a.RecordOver? && !last.who.Watchdog? && last.what == Memory))
  {
  }

  lemma SayableStep(st: State, a: Action)
    requires AreSayable(st) && Enabled(st, a)
    ensures AreSayable(Next(st, a))
  {
    var st' := Next(st, a);
    AttemptsGrow(st, a);
    forall i | 0 <= i < |st'.attempts|
      ensures IsSayable(st'.attempts[i])
    {
      if i < |st.attempts| {
        assert st'.attempts[i] == st.attempts[i];
      }
    }
    OneDogMoves(st, a);
    if IsDogs(a) {
      MovedIsSayable(st, a);
    }
  }

  lemma MovedIsSayable(st: State, a: Action)
    requires Enabled(st, a) && IsDogs(a) && a.dog in Next(st, a).dogs
    requires a.dog in st.dogs && st.dogs[a.dog].Recording? ==> st.dogs[a.dog].over == Wall || st.dogs[a.dog].over == Cpu
    ensures Next(st, a).dogs[a.dog].Recording? ==> Next(st, a).dogs[a.dog].over == Wall || Next(st, a).dogs[a.dog].over == Cpu
  {
  }

  /** The allocator, the heap and a collection say memory, and a watchdog one of the two
      clocks. */
  lemma LimitsAreTheirRecorders(st: State, run: seq<Action>, end: State, i: nat)
    requires Init(st) && After(Step, st, run) == Some(end) && i < |end.attempts|
    ensures end.attempts[i].who.Watchdog? ==> end.attempts[i].what == Wall || end.attempts[i].what == Cpu
    ensures !end.attempts[i].who.Watchdog? ==> end.attempts[i].what == Memory
  {
    forall s, a | AreSayable(s) && Step(s, a).Some?
      ensures AreSayable(Step(s, a).value)
    {
      SayableStep(s, a);
    }
    Always(Step, s => AreSayable(s), st, run);
    assert IsSayable(end.attempts[i]);
  }

  lemma DecidedNow(st: State, a: Action, d: nat)
    requires Enabled(st, a) && d in Next(st, a).dogs && Next(st, a).dogs[d].Recording?
    ensures || (d in st.dogs && st.dogs[d] == Next(st, a).dogs[d])
            || (a.Decide? && a.dog == d && (if a.wall then Next(st, a).dogs[d].over == Wall
                                            else a.cpu && Next(st, a).dogs[d].over == Cpu))
  {
    OneDogMoves(st, a);
  }

  /** A watchdog about to record a clock found that clock over, and the wall clock first
      where both were. */
  lemma {:induction false} RecordsWhatRanOut(st: State, run: seq<Action>, end: State, d: nat) returns (k: nat)
    requires Init(st) && After(Step, st, run) == Some(end) && d in end.dogs && end.dogs[d].Recording?
    ensures k < |run| && run[k].Decide? && run[k].dog == d
    ensures if run[k].wall then end.dogs[d].over == Wall else run[k].cpu && end.dogs[d].over == Cpu
    decreases |run|
  {
    var last := |run| - 1;
    assert run == run[..last] + [run[last]];
    Join(Step, st, run[..last], [run[last]]);
    var before := After(Step, st, run[..last]).value;
    assert After(Step, Step(before, run[last]).value, []) == Some(end);
    DecidedNow(before, run[last], d);
    if d in before.dogs && before.dogs[d] == end.dogs[d] {
      k := RecordsWhatRanOut(st, run[..last], before, d);
    } else {
      k := last;
    }
  }

  // A function is told about a limit once.

  datatype Key = Key(call: nat, what: Warning)

  /** What a watchdog has won and not handed over, and what a sent one was. */
  function Pending(d: Dog): Option<Key> {
    if d.Telling? then Some(Key(d.wonIn, d.what)) else None
  }

  function KeyOf(s: Sent): Key {
    Key(s.wonIn, s.what)
  }

  ghost predicate WonInv(call: nat, warned: bv8, won: set<Key>) {
    && (forall w :: Key(call, w) in won <==> Warned(warned, w))
    && (forall key :: key in won ==> key.call <= call)
  }

  /** Every win is pending with one watchdog or sent once, never both. */
  ghost predicate HandedInv(won: set<Key>, dogs: map<nat, Dog>, sent: seq<Sent>) {
    && (forall d :: d in dogs && Pending(dogs[d]).Some? ==> Pending(dogs[d]).value in won)
    && (forall d, e :: d in dogs && e in dogs && d != e && Pending(dogs[d]).Some? ==>
          Pending(dogs[d]) != Pending(dogs[e]))
    && (forall i :: 0 <= i < |sent| ==> KeyOf(sent[i]) in won)
    && (forall i, d :: 0 <= i < |sent| && d in dogs ==> Pending(dogs[d]) != Some(KeyOf(sent[i])))
    && (forall i, j :: 0 <= i < j < |sent| ==> KeyOf(sent[i]) != KeyOf(sent[j]))
  }

  ghost predicate WarnedInv(st: State) {
    WonInv(st.call, st.cells.warned, st.won) && HandedInv(st.won, st.dogs, st.sent)
  }

  lemma QuietMoveKeeps(won: set<Key>, dogs: map<nat, Dog>, sent: seq<Sent>, dog: nat, to: Dog)
    requires HandedInv(won, dogs, sent) && !to.Telling?
    ensures HandedInv(won, dogs[dog := to], sent)
  {
  }

  lemma FirstKeeps(st: State, dog: nat)
    requires WarnedInv(st) && Enabled(st, First(dog))
    ensures WarnedInv(Next(st, First(dog)))
  {
    var due := st.dogs[dog].due;
    OrSetsOneWarning(st.cells, due[0]);
    if Warned(st.cells.warned, due[0]) {
      QuietMoveKeeps(st.won, st.dogs, st.sent, dog, Alerting(due[1..]));
    } else {
      assert Key(st.call, due[0]) !in st.won;
    }
  }

  lemma TellKeeps(st: State, dog: nat)
    requires WarnedInv(st) && Enabled(st, Tell(dog))
    ensures WarnedInv(Next(st, Tell(dog)))
  {
    assert KeyOf(Next(st, Tell(dog)).sent[|st.sent|]) == Pending(st.dogs[dog]).value;
  }

  lemma RestartKeeps(st: State)
    requires WarnedInv(st)
    ensures WarnedInv(Next(st, Restart))
  {
    forall w
      ensures Key(st.call + 1, w) !in st.won && !Warned(0, w)
    {
    }
  }

  lemma WarnedStep(st: State, a: Action)
    requires WarnedInv(st) && Enabled(st, a)
    ensures WarnedInv(Next(st, a))
  {
    match a {
      case First(dog) => FirstKeeps(st, dog);
      case Tell(dog) => TellKeeps(st, dog);
      case Restart => RestartKeeps(st);
      case _ => OtherStep(st, a);
    }
  }

  /** Every other step moves at most one watchdog, and to no place where it
      would hold a warning. */
  lemma OtherStep(st: State, a: Action)
    requires WarnedInv(st) && Enabled(st, a)
    requires !a.First? && !a.Tell? && !a.Restart?
    ensures WarnedInv(Next(st, a))
  {
    OneDogMoves(st, a);
    OtherStepTellsNothing(st, a);
    if IsDogs(a) {
      QuietMoveKeeps(st.won, st.dogs, st.sent, a.dog, Next(st, a).dogs[a.dog]);
    }
  }

  lemma OtherStepTellsNothing(st: State, a: Action)
    requires Enabled(st, a) && !a.First? && !a.Tell? && !a.Restart?
    ensures Next(st, a).call == st.call && Next(st, a).cells.warned == st.cells.warned
    ensures Next(st, a).won == st.won && Next(st, a).sent == st.sent
    ensures IsDogs(a) ==> a.dog in Next(st, a).dogs && !Next(st, a).dogs[a.dog].Telling?
  {
  }

  lemma NothingWarned()
    ensures forall w :: !Warned(0, w)
  {
  }

  lemma WarnedReachable(st: State, run: seq<Action>, end: State)
    requires Init(st) && After(Step, st, run) == Some(end)
    ensures WarnedInv(end)
  {
    assert WarnedInv(st) by {
      NothingWarned();
    }
    forall s, a | WarnedInv(s) && Step(s, a).Some?
      ensures WarnedInv(Step(s, a).value)
    {
      WarnedStep(s, a);
    }
    Always(Step, s => WarnedInv(s), st, run);
  }

  /** However often any number of watchdogs look, no two of the warnings a
      function is handed are of one kind and were won in one call. */
  lemma EachWarningIsSentOnce(st: State, run: seq<Action>, end: State, i: nat, j: nat)
    requires Init(st) && After(Step, st, run) == Some(end)
    requires i < j < |end.sent|
    ensures end.sent[i].what != end.sent[j].what || end.sent[i].wonIn != end.sent[j].wonIn
  {
    WarnedReachable(st, run, end);
    assert KeyOf(end.sent[i]) != KeyOf(end.sent[j]);
  }

  // A warning won in one call and handed over in the next.

  /** A step within one call. */
  function InCall(st: State, a: Action): Option<State> {
    if a.Restart? then None else Step(st, a)
  }

  ghost predicate IsTelling(st: State, dog: nat) {
    dog in st.dogs && st.dogs[dog].Telling?
  }

  /** In this call, and from here on, what is handed over was won in it. */
  ghost predicate OwnOnly(st: State, call: nat, from: nat) {
    && st.call == call && from <= |st.sent|
    && (forall d :: IsTelling(st, d) ==> st.dogs[d].wonIn == call)
    && (forall i :: from <= i < |st.sent| ==> st.sent[i].wonIn == call)
  }

  lemma OwnMoved(st: State, a: Action)
    requires Enabled(st, a) && IsDogs(a) && IsTelling(Next(st, a), a.dog)
    ensures Next(st, a).dogs[a.dog].wonIn == st.call
  {
  }

  lemma OwnSent(st: State, a: Action)
    requires Enabled(st, a) && !a.Restart?
    ensures Next(st, a).call == st.call
    ensures Next(st, a).sent == st.sent
            || (a.Tell? && IsTelling(st, a.dog) && |Next(st, a).sent| == |st.sent| + 1
                && Next(st, a).sent[..|st.sent|] == st.sent
                && Next(st, a).sent[|st.sent|].wonIn == st.dogs[a.dog].wonIn)
  {
  }

  lemma OwnStep(st: State, a: Action, call: nat, from: nat)
    requires OwnOnly(st, call, from) && InCall(st, a).Some?
    ensures OwnOnly(InCall(st, a).value, call, from)
  {
    var st' := Next(st, a);
    OneDogMoves(st, a);
    OwnSent(st, a);
    forall d | IsTelling(st', d)
      ensures st'.dogs[d].wonIn == call
    {
      if IsDogs(a) && a.dog == d {
        OwnMoved(st, a);
      } else {
        assert IsTelling(st, d);
      }
    }
    forall i | from <= i < |st'.sent|
      ensures st'.sent[i].wonIn == call
    {
      if i < |st.sent| {
        assert st'.sent[i] == st.sent[i];
      }
    }
  }

  lemma OwnRun(st: State, call: nat, from: nat, more: seq<Action>)
    requires OwnOnly(st, call, from) && After(InCall, st, more).Some?
    ensures OwnOnly(After(InCall, st, more).value, call, from)
  {
    forall s, a | OwnOnly(s, call, from) && InCall(s, a).Some?
      ensures OwnOnly(InCall(s, a).value, call, from)
    {
      OwnStep(s, a, call, from);
    }
    Always(InCall, s => OwnOnly(s, call, from), st, more);
  }

  /** Whatever a call goes on to do, every warning handed over in it was won in
      it. */
  ghost predicate IsToldItsOwn(st: State) {
    forall more, i :: After(InCall, st, more).Some? && |st.sent| <= i < |After(InCall, st, more).value.sent| ==>
                        After(InCall, st, more).value.sent[i].wonIn == st.call
  }

  /** A call is sure to be told only of itself if and only if no watchdog had a
      warning to hand over when it began. */
  lemma ToldItsOwnIff(st: State, run: seq<Action>, mid: State)
    requires Init(st) && After(Step, st, run) == Some(mid)
    ensures IsToldItsOwn(Next(mid, Restart)) <==> forall d :: !IsTelling(mid, d)
  {
    var begun := Next(mid, Restart);
    if forall d :: !IsTelling(mid, d) {
      forall d
        ensures !IsTelling(begun, d)
      {
        assert !IsTelling(mid, d);
      }
      forall more, i | After(InCall, begun, more).Some? && |begun.sent| <= i < |After(InCall, begun, more).value.sent|
        ensures After(InCall, begun, more).value.sent[i].wonIn == begun.call
      {
        OwnRun(begun, begun.call, |begun.sent|, more);
      }
    } else {
      var d :| IsTelling(mid, d);
      WarnedReachable(st, run, mid);
      assert Pending(mid.dogs[d]).value in mid.won;
      assert After(InCall, begun, []) == Some(begun);
      var more, end := Then(InCall, begun, [], begun, Tell(d));
      assert end.sent[|begun.sent|].wonIn == mid.dogs[d].wonIn < begun.call;
    }
  }

  /** Two of the warnings handed over in one call are of one kind. */
  ghost predicate IsToldTwice(st: State, more: seq<Action>) {
    && After(InCall, st, more).Some?
    && var sent := After(InCall, st, more).value.sent;
       exists i, j :: |st.sent| <= i < j < |sent| && sent[i].what == sent[j].what
  }

  lemma {:induction false} InCallIsARun(st: State, more: seq<Action>)
    requires After(InCall, st, more).Some?
    ensures After(Step, st, more) == After(InCall, st, more)
    decreases |more|
  {
    if more != [] {
      InCallIsARun(InCall(st, more[0]).value, more[1..]);
    }
  }

  lemma BegunIsReached(st: State, run: seq<Action>, mid: State, more: seq<Action>)
    requires After(Step, st, run) == Some(mid) && After(InCall, Next(mid, Restart), more).Some?
    ensures exists all :: After(Step, st, all) == After(InCall, Next(mid, Restart), more)
  {
    InCallIsARun(Next(mid, Restart), more);
    var begun, s := Then(Step, st, run, mid, Restart);
    Join(Step, st, begun, more);
  }

  /** Where nothing was left to hand over, a call is told of each kind once at
      most. */
  lemma QuietCallIsToldOnce(st: State, run: seq<Action>, mid: State, more: seq<Action>)
    requires Init(st) && After(Step, st, run) == Some(mid) && forall d :: !IsTelling(mid, d)
    ensures !IsToldTwice(Next(mid, Restart), more)
  {
    var begun := Next(mid, Restart);
    if After(InCall, begun, more).Some? {
      var end := After(InCall, begun, more).value;
      BegunIsReached(st, run, mid, more);
      var all :| After(Step, st, all) == Some(end);
      ToldItsOwnIff(st, run, mid);
      forall i, j | |begun.sent| <= i < j < |end.sent|
        ensures end.sent[i].what != end.sent[j].what
      {
        EachWarningIsSentOnce(st, all, end, i, j);
        assert end.sent[i].wonIn == begun.call == end.sent[j].wonIn;
      }
    }
  }

  /** A watchdog asks about three of the four warnings. */
  predicate AsksAbout(d: Dog) {
    && (d.Alerting? ==> NearTermination !in d.due)
    && (d.Telling? ==> !d.what.NearTermination? && NearTermination !in d.due)
  }

  ghost predicate AskInv(st: State) {
    forall d :: d in st.dogs ==> AsksAbout(st.dogs[d])
  }

  lemma AskMoved(st: State, a: Action)
    requires Enabled(st, a) && IsDogs(a) && (a.dog in st.dogs ==> AsksAbout(st.dogs[a.dog]))
    requires a.dog in Next(st, a).dogs
    ensures AsksAbout(Next(st, a).dogs[a.dog])
  {
    if a.First? {
      assert forall w :: w in st.dogs[a.dog].due[1..] ==> w in st.dogs[a.dog].due;
    }
  }

  lemma AskStep(st: State, a: Action)
    requires AskInv(st) && Enabled(st, a)
    ensures AskInv(Next(st, a))
  {
    OneDogMoves(st, a);
    if IsDogs(a) {
      AskMoved(st, a);
    }
  }

  lemma AskReachable(st: State, run: seq<Action>, end: State)
    requires Init(st) && After(Step, st, run) == Some(end)
    ensures AskInv(end)
  {
    forall s, a | AskInv(s) && Step(s, a).Some?
      ensures AskInv(Step(s, a).value)
    {
      AskStep(s, a);
    }
    Always(Step, s => AskInv(s), st, run);
  }

  lemma DueOne(what: Warning)
    requires !what.NearTermination?
    ensures Due(what.NearWall?, what.NearCpu?, what.NearMemory?) == [what]
  {
    match what
    case NearWall =>
    case NearCpu =>
    case NearMemory =>
  }

  lemma {:induction false} SomeNewDog(dogs: set<nat>) returns (dog: nat)
    ensures dog !in dogs && forall d :: d in dogs ==> d < dog
  {
    if dogs == {} {
      dog := 0;
    } else {
      var d :| d in dogs;
      var below := SomeNewDog(dogs - {d});
      dog := if d < below then below else d + 1;
      forall e | e in dogs
        ensures e < dog
      {
        assert e == d || e in dogs - {d};
      }
    }
  }

  /** A new watchdog wins a warning nobody has won in this call, and hands it
      over; then the late one hands over its own of that kind. */
  lemma TellsTwice(st: State, late: nat) returns (more: seq<Action>)
    requires IsTelling(st, late) && AsksAbout(st.dogs[late]) && st.cells.hit == None && st.cells.warned == 0
    ensures IsToldTwice(st, more)
  {
    var what := st.dogs[late].what;
    var dog := SomeNewDog(st.dogs.Keys);
    NothingWarned();
    var end := st;
    more := [];
    assert After(InCall, st, []) == Some(st);
    more, end := Then(InCall, st, more, end, Spawn(dog));
    more, end := ToFirst(st, more, end, dog, what);
    more, end := Then(InCall, st, more, end, Tell(dog));
    more, end := Then(InCall, st, more, end, Tell(late));
    assert end.sent[|st.sent|].what == what && end.sent[|st.sent| + 1].what == what;
  }

  /** While no limit is reached, a call can be told of one thing twice if and
      only if a watchdog had a warning to hand over when it began. */
  lemma ToldTwiceIff(st: State, run: seq<Action>, mid: State)
    requires Init(st) && After(Step, st, run) == Some(mid) && mid.cells.hit == None
    ensures (exists more :: IsToldTwice(Next(mid, Restart), more)) <==> exists d :: IsTelling(mid, d)
  {
    var begun := Next(mid, Restart);
    if d :| IsTelling(mid, d) {
      AskReachable(st, run, mid);
      assert IsTelling(begun, d);
      var more := TellsTwice(begun, d);
    } else {
      forall more
        ensures !IsToldTwice(begun, more)
      {
        QuietCallIsToldOnce(st, run, mid, more);
      }
    }
  }

  /** A watchdog of the last call that is slow to hand its warning over hands
      it into the next call, which is then told the same thing twice. */
  lemma LateWarningIsSentTwice(st: State) returns (run: seq<Action>, mid: State, more: seq<Action>)
    requires Init(st)
    ensures After(Step, st, run) == Some(mid) && IsToldTwice(Next(mid, Restart), more)
  {
    NothingWarned();
    assert After(InCall, st, []) == Some(st);
    run, mid := Then(InCall, st, [], st, Spawn(0));
    run, mid := ToFirst(st, run, mid, 0, NearCpu);
    InCallIsARun(st, run);
    more := TellsTwice(Next(mid, Restart), 0);
  }

  lemma ToAlerting(st: State, run: seq<Action>, s: State, dog: nat, what: Warning)
    returns (run': seq<Action>, end: State)
    requires After(InCall, st, run) == Some(s)
    requires dog in s.dogs && s.dogs[dog] == Waiting && s.cells.hit == None && !what.NearTermination?
    ensures After(InCall, st, run') == Some(end)
    ensures end == s.(dogs := s.dogs[dog := Alerting([what])])
  {
    run', end := Then(InCall, st, run, s, Wake(dog));
    run', end := Then(InCall, st, run', end, Check(dog));
    DueOne(what);
    run', end := Then(InCall, st, run', end, Ask(dog, false, true, what.NearWall?, what.NearCpu?, what.NearMemory?));
    assert end.dogs == s.dogs[dog := Alerting([what])];
  }

  /** One watchdog winning a warning. */
  lemma ToFirst(st: State, run: seq<Action>, s: State, dog: nat, what: Warning)
    returns (run': seq<Action>, end: State)
    requires After(InCall, st, run) == Some(s)
    requires dog in s.dogs && s.dogs[dog] == Waiting
    requires s.cells.hit == None && !Warned(s.cells.warned, what) && !what.NearTermination?
    ensures After(InCall, st, run') == Some(end)
    ensures end.dogs == s.dogs[dog := Telling(what, s.call, [])]
    ensures end.call == s.call && end.sent == s.sent && end.cells.hit == None
  {
    run', end := ToAlerting(st, run, s, dog, what);
    run', end := Then(InCall, st, run', end, First(dog));
    assert [what][1..] == [];
  }

  // A limit recorded is a call stopped, almost.

  /** The watchdog has looked and will not look again. */
  predicate Looked(d: Dog) {
    d.Gone? && (d.why.SawLimit? || d.why.WonRecord? || d.why.LostRecord?)
  }

  ghost predicate StopInv(st: State) {
    && (st.cells.hit == None ==> !st.terminated && !st.heapStopping && !st.collector.Stopping?)
    && forall d :: d in st.dogs ==> DogStops(st, st.dogs[d])
  }

  ghost predicate DogStops(st: State, d: Dog) {
    && (d.Terminating? ==> st.cells.hit.Some? && (d.why.SawLimit? || d.why.WonRecord?))
    && (d.Gone? && (d.why.SawLimit? || d.why.WonRecord?) ==> st.terminated)
  }

  lemma StopCells(st: State, a: Action)
    requires Enabled(st, a)
    requires st.cells.hit == None ==> !st.terminated && !st.heapStopping && !st.collector.Stopping?
    requires IsDogs(a) && a.dog in st.dogs ==> DogStops(st, st.dogs[a.dog])
    ensures var st' := Next(st, a);
            && (st'.cells.hit == None ==> !st'.terminated && !st'.heapStopping && !st'.collector.Stopping?)
            && (st.terminated ==> st'.terminated)
  {
    HitStep(st, a);
  }

  lemma StopMoved(st: State, a: Action)
    requires Enabled(st, a) && IsDogs(a) && (a.dog in st.dogs ==> DogStops(st, st.dogs[a.dog]))
    requires a.dog in Next(st, a).dogs
    ensures DogStops(Next(st, a), Next(st, a).dogs[a.dog])
  {
  }

  lemma StopStep(st: State, a: Action)
    requires StopInv(st) && Enabled(st, a)
    ensures StopInv(Next(st, a))
  {
    HitStep(st, a);
    StopCells(st, a);
    OneDogMoves(st, a);
    if IsDogs(a) {
      StopMoved(st, a);
    }
  }

  /** A watchdog that has not yet passed its check when a limit is recorded. */
  ghost predicate WillSee(d: Dog) {
    d.Waiting? || d.Checking? || d == Terminating(SawLimit) || d == Gone(SawLimit) || d == Gone(Disconnected)
  }

  ghost predicate SeeInv(st: State, dog: nat) {
    && StopInv(st)
    && st.cells.hit.Some?
    && dog in st.dogs && WillSee(st.dogs[dog])
  }

  lemma SeeStep(st: State, a: Action, dog: nat)
    requires SeeInv(st, dog) && Enabled(st, a)
    ensures SeeInv(Next(st, a), dog)
  {
    HitStep(st, a);
    StopStep(st, a);
  }

  lemma StopReachable(st: State, run: seq<Action>, end: State)
    requires Init(st) && After(Step, st, run) == Some(end)
    ensures StopInv(end)
  {
    forall s, a | StopInv(s) && Step(s, a).Some?
      ensures StopInv(Step(s, a).value)
    {
      StopStep(s, a);
    }
    Always(Step, s => StopInv(s), st, run);
  }

  lemma CheckToComeStops(st: State, dog: nat, more: seq<Action>, end: State)
    requires SeeInv(st, dog) && After(Step, st, more) == Some(end)
    ensures dog in end.dogs && (Looked(end.dogs[dog]) ==> end.terminated)
  {
    forall s, a | SeeInv(s, dog) && Step(s, a).Some?
      ensures SeeInv(Step(s, a).value, dog)
    {
      SeeStep(s, a, dog);
    }
    Always(Step, s => SeeInv(s, dog), st, more);
  }

  /** Past its check, a watchdog that finds itself over a clock loses its
      record to the one already there and leaves without stopping anything. */
  lemma PastCheckMayLeave(st: State, dog: nat) returns (more: seq<Action>, end: State)
    requires st.cells.hit.Some? && !st.terminated
    requires dog in st.dogs
    requires var d := st.dogs[dog]; d.Asking? || d.Alerting? || d.Telling? || d.Recording?
    ensures After(Step, st, more) == Some(end)
    ensures dog in end.dogs && end.dogs[dog] == Gone(LostRecord) && !end.terminated
  {
    more, end := [], st;
    if st.dogs[dog].Asking? {
      more, end := Then(Step, st, more, end, Ask(dog, false, true, false, false, false));
    }
    if !end.dogs[dog].Recording? {
      more, end := FinishWarnings(st, more, end, dog);
      more, end := Then(Step, st, more, end, Decide(dog, true, false));
    }
    more, end := Then(Step, st, more, end, RecordOver(dog));
  }

  lemma {:induction false} FinishWarnings(st: State, run: seq<Action>, s: State, dog: nat)
    returns (run': seq<Action>, end: State)
    requires After(Step, st, run) == Some(s)
    requires dog in s.dogs && (s.dogs[dog].Alerting? || s.dogs[dog].Telling?)
    ensures After(Step, st, run') == Some(end)
    ensures dog in end.dogs && end.dogs[dog] == Alerting([])
    ensures end.cells.hit == s.cells.hit && end.terminated == s.terminated
    decreases |s.dogs[dog].due|, s.dogs[dog].Telling?
  {
    if s.dogs[dog].Telling? {
      run', end := Then(Step, st, run, s, Tell(dog));
      run', end := FinishWarnings(st, run', end, dog);
    } else if s.dogs[dog].due != [] {
      run', end := Then(Step, st, run, s, First(dog));
      run', end := FinishWarnings(st, run', end, dog);
    } else {
      run', end := run, s;
    }
  }

  /** Whether a refused allocation is sure to stop the call: exactly when the
      watchdog has not passed its check yet at the moment the allocator
      records the limit. A watchdog already past it may go over a clock, lose
      its own record to the allocator's and leave, and the allocator
      terminates nothing. */
  lemma RefusalStopsTheCallIff(st: State, run: seq<Action>, mid: State, dog: nat)
    requires Init(st) && After(Step, st, run) == Some(mid)
    requires mid.cells.hit == None
    requires dog in mid.dogs && !mid.dogs[dog].Gone?
    ensures (forall more, end ::
               (After(Step, Next(mid, Refuse), more) == Some(end) && dog in end.dogs && Looked(end.dogs[dog]))
               ==> end.terminated)
            <==> mid.dogs[dog].Waiting? || mid.dogs[dog].Checking?
  {
    var refused := Next(mid, Refuse);
    StopReachable(st, run, mid);
    StopStep(mid, Refuse);
    if mid.dogs[dog].Waiting? || mid.dogs[dog].Checking? {
      forall more, end | After(Step, refused, more) == Some(end) && dog in end.dogs && Looked(end.dogs[dog])
        ensures end.terminated
      {
        CheckToComeStops(refused, dog, more, end);
      }
    } else {
      assert DogStops(mid, mid.dogs[dog]);
      var more, end := PastCheckMayLeave(refused, dog);
    }
  }

  /** Any other winner stops the call whatever the watchdogs are doing: it has
      terminated the isolate or is about to. */
  lemma OtherWinnersStopTheCall(st: State, run: seq<Action>, end: State)
    requires Init(st) && After(Step, st, run) == Some(end)
    requires end.attempts != [] && end.attempts[0].who != Allocator
    ensures end.terminated || end.heapStopping || end.collector.Stopping?
            || exists d :: d in end.dogs && end.dogs[d].Terminating?
  {
    forall s, a | WinnerInv(s) && Step(s, a).Some?
      ensures WinnerInv(Step(s, a).value)
    {
      WinnerStep(s, a);
    }
    Always(Step, s => WinnerInv(s), st, run);
  }

  ghost predicate WinnerInv(st: State) {
    && (!st.cells.collecting ==> st.collector == Resting)
    && (st.cells.hit == None <==> st.attempts == [])
    && (st.attempts != [] && !st.terminated ==>
          match st.attempts[0].who
          case Allocator => true
          case Heap => st.heapStopping
          case Collection => st.collector.Stopping?
          case Watchdog(d) => d in st.dogs && st.dogs[d].Terminating?)
  }

  lemma WinnerStep(st: State, a: Action)
    requires WinnerInv(st) && Enabled(st, a)
    ensures WinnerInv(Next(st, a))
  {
    HitStep(st, a);
    CollectionStep(st, a);
  }

  lemma CollectionStep(st: State, a: Action)
    requires Enabled(st, a)
    requires !st.cells.collecting ==> st.collector == Resting
    ensures !Next(st, a).cells.collecting ==> Next(st, a).collector == Resting
  {
  }

  /** One collection is asked for at a time: a watchdog that may ask finds the
      last one finished. */
  lemma OneCollectionAtATime(st: State, run: seq<Action>, end: State)
    requires Init(st) && After(Step, st, run) == Some(end)
    ensures !end.cells.collecting ==> end.collector == Resting
  {
    forall s, a | WinnerInv(s) && Step(s, a).Some?
      ensures WinnerInv(Step(s, a).value)
    {
      WinnerStep(s, a);
    }
    Always(Step, s => WinnerInv(s), st, run);
  }

  // When the flag is up.

  /** A watchdog asked for a collection of an isolate that was gone. */
  ghost predicate IsAbandoned(st: State) {
    exists d :: d in st.dogs && st.dogs[d] == Gone(IsolateGone)
  }

  ghost predicate NoneStopsForThat(st: State) {
    forall d :: d in st.dogs && st.dogs[d].Terminating? ==> st.dogs[d].why != IsolateGone
  }

  ghost predicate FlagInv(st: State) {
    && (st.cells.collecting <==> st.collector != Resting || IsAbandoned(st))
    && (IsAbandoned(st) ==> st.collector == Resting)
    && NoneStopsForThat(st)
  }

  lemma NoneStopsStep(st: State, a: Action)
    requires Enabled(st, a) && NoneStopsForThat(st)
    ensures NoneStopsForThat(Next(st, a))
  {
    OneDogMoves(st, a);
  }

  lemma AbandonedStep(st: State, a: Action)
    requires Enabled(st, a) && NoneStopsForThat(st)
    ensures IsAbandoned(Next(st, a)) <==>
            IsAbandoned(st) || (a.Ask? && a.over && !st.cells.collecting && !a.alive)
  {
    var next := Next(st, a);
    OneDogMoves(st, a);
    if IsAbandoned(st) {
      var d :| d in st.dogs && st.dogs[d] == Gone(IsolateGone);
      assert d in next.dogs && next.dogs[d] == Gone(IsolateGone);
    }
    if a.Ask? && a.over && !st.cells.collecting && !a.alive {
      assert next.dogs[a.dog] == Gone(IsolateGone);
    }
  }

  lemma FlagStep(st: State, a: Action)
    requires FlagInv(st) && Enabled(st, a)
    ensures FlagInv(Next(st, a))
  {
    NoneStopsStep(st, a);
    AbandonedStep(st, a);
  }

  /** In every run the flag is up if and only if a collection is under way, or one
      was asked of an isolate that was gone, so one that is over lets another be
      asked for. */
  lemma CollectingIff(st: State, run: seq<Action>, end: State)
    requires Init(st) && After(Step, st, run) == Some(end)
    ensures end.cells.collecting <==> end.collector != Resting || IsAbandoned(end)
  {
    forall s, a | FlagInv(s) && Step(s, a).Some?
      ensures FlagInv(Step(s, a).value)
    {
      FlagStep(s, a);
    }
    Always(Step, s => FlagInv(s), st, run);
  }

  // What a watchdog does in turn.

  /** What a watchdog may do next. */
  predicate Follows(a: Action, b: Action) {
    match a
    case Spawn(_) => b.Wake? || b.Disconnect?
    case Wake(_) => b.Check?
    case Check(_) => b.Ask? || b.Terminate?
    case Ask(_, _, _, _, _, _) => b.First? || b.Decide?
    case First(_) => b.First? || b.Tell? || b.Decide?
    case Tell(_) => b.First? || b.Decide?
    case Decide(_, _, _) => b.Wake? || b.Disconnect? || b.RecordOver?
    case RecordOver(_) => b.Terminate?
    case _ => false
  }

  /** Where it is after that. */
  ghost predicate IsLeft(a: Action, d: Dog) {
    match a
    case Spawn(_) => d.Waiting?
    case Wake(_) => d.Checking?
    case Check(_) => d.Asking? || d.Terminating?
    case Ask(_, _, _, _, _, _) => d.Alerting? || d.Gone?
    case First(_) => d.Alerting? || d.Telling?
    case Tell(_) => d.Alerting?
    case Decide(_, _, _) => d.Waiting? || d.Recording?
    case RecordOver(_) => d.Terminating? || d.Gone?
    case _ => d.Gone?
  }

  lemma LeftBy(st: State, a: Action)
    requires Enabled(st, a) && IsDogs(a)
    ensures a.dog in Next(st, a).dogs && IsLeft(a, Next(st, a).dogs[a.dog])
  {
  }

  lemma MayFollow(st: State, a: Action, b: Action)
    requires IsDogs(a) && IsDogs(b) && a.dog == b.dog && Enabled(st, b)
    requires a.dog in st.dogs && IsLeft(a, st.dogs[a.dog])
    ensures Follows(a, b)
  {
  }

  ghost predicate LeaveAlone(run: seq<Action>, dog: nat) {
    forall i :: 0 <= i < |run| ==> !(IsDogs(run[i]) && run[i].dog == dog)
  }

  lemma {:induction false} DogStays(st: State, run: seq<Action>, end: State, dog: nat)
    requires dog in st.dogs && LeaveAlone(run, dog) && After(Step, st, run) == Some(end)
    ensures dog in end.dogs && end.dogs[dog] == st.dogs[dog]
    decreases |run|
  {
    if run != [] {
      OneDogMoves(st, run[0]);
      DogStays(Next(st, run[0]), run[1..], end, dog);
    }
  }

  /** Between two things a watchdog does with nothing of its own between them, the
      second is one that comes after the first: it wakes, checks, asks, warns, hands
      over and decides, in that order and none left out. */
  lemma TurnsAreInOrder(st: State, a: Action, between: seq<Action>, mid: State, b: Action)
    requires IsDogs(a) && IsDogs(b) && a.dog == b.dog && LeaveAlone(between, a.dog)
    requires After(Step, st, [a] + between) == Some(mid) && Step(mid, b).Some?
    ensures Follows(a, b)
  {
    assert ([a] + between)[0] == a && ([a] + between)[1..] == between;
    LeftBy(st, a);
    DogStays(Next(st, a), between, mid, a.dog);
    MayFollow(mid, a, b);
  }

  // And what a collection does.

  predicate IsCollections(a: Action) {
    a.CollectRecord? || a.CollectTerminate? || a.CollectDone?
  }

  predicate CollectFollows(a: Action, b: Action) {
    match a
    case CollectRecord(over) => b.CollectDone? || (over && b.CollectTerminate?)
    case CollectTerminate => b.CollectDone?
    case _ => b.CollectRecord?
  }

  /** Where a collection is after that, whatever else happens. */
  ghost predicate IsPast(a: Action, c: Collector) {
    match a
    case CollectRecord(over) => c.Finishing? || (over && c.Stopping?)
    case CollectTerminate => c.Finishing?
    case _ => c.Resting? || c.Requested?
  }

  ghost predicate FlagCovers(st: State) {
    !st.cells.collecting ==> st.collector == Resting
  }

  lemma CollectorStays(st: State, a: Action, b: Action)
    requires Enabled(st, b) && !IsCollections(b) && FlagCovers(st) && IsPast(a, st.collector)
    ensures IsPast(a, Next(st, b).collector)
  {
  }

  lemma {:induction false} PastStays(st: State, a: Action, run: seq<Action>, end: State)
    requires FlagCovers(st) && IsPast(a, st.collector) && After(Step, st, run) == Some(end)
    requires forall i :: 0 <= i < |run| ==> !IsCollections(run[i])
    ensures IsPast(a, end.collector)
    decreases |run|
  {
    if run != [] {
      CollectorStays(st, a, run[0]);
      CollectionStep(st, run[0]);
      PastStays(Next(st, run[0]), a, run[1..], end);
    }
  }

  /** From any state of any run, between two things a collection does with none
      between them, the second comes after the first: it says whether it is over the
      limit, stops the isolate only then, and is done before there is another. */
  lemma CollectionsAreInOrder(st: State, run: seq<Action>, s: State, a: Action, between: seq<Action>, mid: State, b: Action)
    requires Init(st) && After(Step, st, run) == Some(s)
    requires IsCollections(a) && IsCollections(b) && forall i :: 0 <= i < |between| ==> !IsCollections(between[i])
    requires After(Step, s, [a] + between) == Some(mid) && Step(mid, b).Some?
    ensures CollectFollows(a, b)
  {
    OneCollectionAtATime(st, run, s);
    assert ([a] + between)[0] == a && ([a] + between)[1..] == between;
    CollectionStep(s, a);
    PastStays(Next(s, a), a, between, mid);
  }
}
