/** The calls one isolate answers, one after another, and the ops a function
    can make at any moment of them.

    Where an answer goes is a sink that can be fired once. `made` marks every
    answer and chunk with what the isolate was doing when it was made. */
module Calls {
  import opened Wrappers
  import Runs

  datatype Phase = Idle | Handling(call: nat) | Draining(call: nat)

  datatype Answer = Answer(status: nat, made: Phase)

  /** What the op state holds for a call; the sink and the stream are named by
      the call they belong to. */
  datatype Held = Held(call: nat, answered: Option<Answer>, sink: Option<nat>, writing: Option<nat>)

  datatype Sent = Sent(to: nat, answer: Answer)

  datatype Chunk = Chunk(to: nat, bytes: seq<byte>, made: Phase)

  /** `dropped` is the callers whose sink went without an answer, `failed` the
      streams that were broken off, `ended` how each call came out. */
  datatype State = State(
    held: Option<Held>, phase: Phase, arrived: set<nat>,
    sent: seq<Sent>, dropped: set<nat>, chunks: seq<Chunk>, failed: seq<nat>, ended: map<nat, bool>)

  const START := State(None, Idle, {}, [], {}, [], [], map[])

  // The ops. Each answers whether it worked, and one that did not changed
  // nothing.

  function OpAnswer(st: State, status: nat): (bool, State) {
    if st.held.None? then (false, st)
    else (true, st.(held := Some(st.held.value.(answered := Some(Answer(status, st.phase))))))
  }

  function OpAnswerStart(st: State, status: nat): (bool, State) {
    if st.held.None? || st.held.value.sink.None? then (false, st)
    else
      var held := st.held.value;
      (true, st.(held := Some(held.(sink := None, writing := Some(held.sink.value))),
                 sent := st.sent + [Sent(held.sink.value, Answer(status, st.phase))]))
  }

  /** A chunk the caller is still reading; one it stopped reading is a failed
      op. */
  function OpChunk(st: State, bytes: seq<byte>, read: bool): (bool, State) {
    if st.held.None? || st.held.value.writing.None? || !read then (false, st)
    else (true, st.(chunks := st.chunks + [Chunk(st.held.value.writing.value, bytes, st.phase)]))
  }

  function OpChunkEnd(st: State): (bool, State) {
    if st.held.None? then (false, st)
    else (true, st.(held := Some(st.held.value.(writing := None))))
  }

  function OpChunkFail(st: State): (bool, State) {
    if st.held.None? then (false, st)
    else if st.held.value.writing.None? then (true, st)
    else (true, st.(held := Some(st.held.value.(writing := None)), failed := st.failed + [st.held.value.writing.value]))
  }

  // The steps of a call.

  /** A call arrives: what was held for the last one is replaced. */
  function Arrived(st: State, call: nat): State {
    st.(held := Some(Held(call, None, Some(call), None)), phase := Handling(call), arrived := st.arrived + {call})
  }

  function SinkOf(held: Held): set<nat> {
    if held.sink.Some? then {held.sink.value} else {}
  }

  /** The handler failed: the answer and the sink go with it. */
  function HandlerFailed(st: State, call: nat, held: Held): State {
    st.(held := Some(held.(answered := None, sink := None)), phase := Idle,
        dropped := st.dropped + SinkOf(held), ended := st.ended[call := false])
  }

  /** The handler settled: its answer goes now, unless a streamed one already
      went, and having neither is a failure. */
  function HandlerSettled(st: State, call: nat, held: Held): State {
    var taken := Some(held.(answered := None, sink := None));
    if held.sink.None? then st.(held := taken, phase := Draining(call))
    else if held.answered.Some? then
      st.(held := taken, phase := Draining(call), sent := st.sent + [Sent(held.sink.value, held.answered.value)])
    else
      st.(held := taken, phase := Idle, dropped := st.dropped + {held.sink.value}, ended := st.ended[call := false])
  }

  /** The work left over settled, failed or was dropped. */
  function Drained(st: State, call: nat, ok: bool): State {
    st.(phase := Idle, ended := st.ended[call := ok])
  }

  datatype Action =
    | Arrive(call: nat)
    | Op(op: Request)
    | Fail
    | Settle
    | Drain(ok: bool)

  datatype Request =
    | AnswerAll(status: nat)
    | AnswerStart(status: nat)
    | WriteChunk(bytes: seq<byte>, read: bool)
    | ChunkEnd
    | ChunkFail

  function Made(st: State, op: Request): (bool, State) {
    match op
    case AnswerAll(status) => OpAnswer(st, status)
    case AnswerStart(status) => OpAnswerStart(st, status)
    case WriteChunk(bytes, read) => OpChunk(st, bytes, read)
    case ChunkEnd => OpChunkEnd(st)
    case ChunkFail => OpChunkFail(st)
  }

  /** Calls come one at a time, each once; an op can be made whenever, before
      the first call and between calls too. */
  function Step(st: State, a: Action): Option<State> {
    match a
    case Arrive(call) => if st.phase == Idle && call !in st.arrived then Some(Arrived(st, call)) else None
    case Op(op) => Some(Made(st, op).1)
    case Fail =>
      if st.phase.Handling? && st.held.Some? then Some(HandlerFailed(st, st.phase.call, st.held.value)) else None
    case Settle =>
      if st.phase.Handling? && st.held.Some? then Some(HandlerSettled(st, st.phase.call, st.held.value)) else None
    case Drain(ok) => if st.phase.Draining? then Some(Drained(st, st.phase.call, ok)) else None
  }

  // What every run keeps.

  /** Who was sent an answer. */
  function Told(sent: seq<Sent>): set<nat> {
    if sent == [] then {} else Told(sent[..|sent| - 1]) + {sent[|sent| - 1].to}
  }

  lemma ToldMore(sent: seq<Sent>, one: Sent)
    ensures Told(sent + [one]) == Told(sent) + {one.to}
  {
    assert (sent + [one])[..|sent|] == sent;
  }

  lemma {:induction false} ToldIs(sent: seq<Sent>)
    ensures forall c :: c in Told(sent) <==> exists i :: 0 <= i < |sent| && sent[i].to == c
  {
    if sent != [] {
      var front := sent[..|sent| - 1];
      ToldIs(front);
      assert sent[|sent| - 1].to in Told(sent);
      forall c | c in Told(front)
        ensures exists i :: 0 <= i < |sent| && sent[i].to == c
      {
        var i :| 0 <= i < |front| && front[i].to == c;
        assert sent[i].to == c;
      }
      forall i | 0 <= i < |sent|
        ensures sent[i].to in Told(sent)
      {
        if i < |front| {
          assert front[i].to in Told(front);
        }
      }
    }
  }

  predicate WasSent(st: State, call: nat) {
    call in Told(st.sent)
  }

  predicate Waits(st: State, call: nat) {
    st.held.Some? && st.held.value.sink == Some(call)
  }

  /** A caller's sink is held for it, was fired once, or was dropped, and only
      one of the three. */
  ghost predicate OneFate(st: State, call: nat) {
    && (Waits(st, call) ==> !WasSent(st, call) && call !in st.dropped)
    && (WasSent(st, call) ==> call !in st.dropped)
    && (call in st.arrived <==> Waits(st, call) || WasSent(st, call) || call in st.dropped)
  }

  ghost predicate HeldIsRight(st: State) {
    && (st.phase != Idle ==>
          st.held.Some? && st.held.value.call == st.phase.call && st.phase.call !in st.dropped)
    && (st.held.Some? ==>
          && (st.held.value.sink.Some? ==>
                st.phase == Handling(st.held.value.call) && st.held.value.sink == Some(st.held.value.call))
          && (st.held.value.writing.Some? ==> st.held.value.writing == Some(st.held.value.call))
          && (st.held.value.writing.Some? ==> WasSent(st, st.held.value.call))
          && (st.held.value.answered.Some? && st.held.value.sink.Some? ==> st.held.value.answered.value.made == st.phase)
          && st.held.value.call in st.arrived)
  }

  /** Each caller was sent one answer at most, made while its own call was being
      handled; and chunks went to the call they were made in. */
  ghost predicate SentIsRight(st: State) {
    && (forall i, j :: 0 <= i < j < |st.sent| ==> st.sent[i].to != st.sent[j].to)
    && (forall i :: 0 <= i < |st.sent| ==> st.sent[i].answer.made == Handling(st.sent[i].to))
    && (forall i :: 0 <= i < |st.chunks| && st.chunks[i].made != Idle ==> st.chunks[i].made.call == st.chunks[i].to)
  }

  ghost predicate EndedIsRight(st: State) {
    && (st.phase.Draining? ==> WasSent(st, st.phase.call))
    && (forall c :: c in st.ended && st.ended[c] ==> WasSent(st, c))
    && (forall c :: c in st.ended ==> c in st.arrived)
    && (forall c :: c in st.arrived ==> c in st.ended || (st.phase != Idle && st.phase.call == c))
  }

  ghost predicate Inv(st: State) {
    && HeldIsRight(st)
    && SentIsRight(st)
    && EndedIsRight(st)
    && (forall c :: OneFate(st, c))
  }

  lemma SendingKeeps(sent: seq<Sent>, one: Sent)
    requires forall i, j :: 0 <= i < j < |sent| ==> sent[i].to != sent[j].to
    requires one.to !in Told(sent)
    ensures forall i, j :: 0 <= i < j < |sent + [one]| ==> (sent + [one])[i].to != (sent + [one])[j].to
  {
    ToldIs(sent);
  }

  lemma StartKeeps(st: State, status: nat)
    requires Inv(st) && st.held.Some? && st.held.value.sink.Some?
    ensures Inv(OpAnswerStart(st, status).1)
  {
    var next := OpAnswerStart(st, status).1;
    var one := Sent(st.held.value.sink.value, Answer(status, st.phase));
    assert OneFate(st, st.held.value.call);
    ToldMore(st.sent, one);
    SendingKeeps(st.sent, one);
    assert HeldIsRight(next);
    assert SentIsRight(next);
    assert EndedIsRight(next);
    forall c
      ensures OneFate(next, c)
    {
      assert OneFate(st, c);
    }
  }

  /** An op that sends nothing and leaves the sink. */
  lemma QuietOpKeeps(st: State, next: State)
    requires Inv(st) && HeldIsRight(next) && SentIsRight(next)
    requires next.sent == st.sent && next.dropped == st.dropped && next.arrived == st.arrived
    requires next.ended == st.ended && next.phase == st.phase
    requires next.held.Some? == st.held.Some? && (st.held.Some? ==> next.held.value.sink == st.held.value.sink)
    ensures Inv(next)
  {
    forall c
      ensures OneFate(next, c)
    {
      assert OneFate(st, c);
    }
  }

  lemma OpKeeps(st: State, op: Request)
    requires Inv(st)
    ensures Inv(Made(st, op).1)
  {
    if op.AnswerStart? && st.held.Some? && st.held.value.sink.Some? {
      StartKeeps(st, op.status);
    } else {
      QuietOpKeeps(st, Made(st, op).1);
    }
  }

  lemma ArriveKeeps(st: State, call: nat)
    requires Inv(st) && st.phase == Idle && call !in st.arrived
    ensures Inv(Arrived(st, call))
  {
    assert OneFate(st, call);
    forall c
      ensures OneFate(Arrived(st, call), c)
    {
      assert OneFate(st, c);
    }
  }

  lemma FailKeeps(st: State)
    requires Inv(st) && st.phase.Handling? && st.held.Some?
    ensures Inv(HandlerFailed(st, st.phase.call, st.held.value))
  {
    assert OneFate(st, st.phase.call);
    forall c
      ensures OneFate(HandlerFailed(st, st.phase.call, st.held.value), c)
    {
      assert OneFate(st, c);
    }
  }

  lemma SettleKeeps(st: State)
    requires Inv(st) && st.phase.Handling? && st.held.Some?
    ensures Inv(HandlerSettled(st, st.phase.call, st.held.value))
  {
    var held := st.held.value;
    var next := HandlerSettled(st, st.phase.call, held);
    assert OneFate(st, st.phase.call);
    if held.sink.Some? && held.answered.Some? {
      var one := Sent(held.sink.value, held.answered.value);
      ToldMore(st.sent, one);
      SendingKeeps(st.sent, one);
    }
    forall c
      ensures OneFate(next, c)
    {
      assert OneFate(st, c);
    }
  }

  lemma DrainKeeps(st: State, ok: bool)
    requires Inv(st) && st.phase.Draining?
    ensures Inv(Drained(st, st.phase.call, ok))
  {
    forall c
      ensures OneFate(Drained(st, st.phase.call, ok), c)
    {
      assert OneFate(st, c);
    }
  }

  lemma StepKeeps(st: State, a: Action)
    requires Inv(st) && Step(st, a).Some?
    ensures Inv(Step(st, a).value)
  {
    match a
    case Arrive(call) => ArriveKeeps(st, call);
    case Op(op) => OpKeeps(st, op);
    case Fail => FailKeeps(st);
    case Settle => SettleKeeps(st);
    case Drain(ok) => DrainKeeps(st, ok);
  }

  ghost predicate Reachable(st: State) {
    exists run :: Runs.After(Step, START, run) == Some(st)
  }

  lemma ReachableIsRight(st: State)
    requires Reachable(st)
    ensures Inv(st)
  {
    var run :| Runs.After(Step, START, run) == Some(st);
    assert forall c :: OneFate(START, c);
    forall s, a | Inv(s) && Step(s, a).Some?
      ensures Inv(Step(s, a).value)
    {
      StepKeeps(s, a);
    }
    Runs.Always(Step, Inv, START, run);
  }

  // The results.

  /** However the ops come, no caller is sent two answers, and the one it is
      sent was made while its own call was being handled: not by work left over
      from the call before, and not before any call. */
  lemma AnswersReachTheirOwnCaller(st: State, i: nat)
    requires Reachable(st) && i < |st.sent|
    ensures st.sent[i].answer.made == Handling(st.sent[i].to)
    ensures forall j :: 0 <= j < |st.sent| && j != i ==> st.sent[j].to != st.sent[i].to
  {
    ReachableIsRight(st);
  }

  /** When no call is running every caller so far was answered once or let go:
      nobody is left waiting on a sink. */
  lemma NobodyIsLeftWaiting(st: State, call: nat)
    requires Reachable(st) && !st.phase.Handling? && call in st.arrived
    ensures (exists i :: 0 <= i < |st.sent| && st.sent[i].to == call) <==> call !in st.dropped
    ensures st.held.Some? ==> st.held.value.sink == None
  {
    ReachableIsRight(st);
    ToldIs(st.sent);
    assert OneFate(st, call);
  }

  /** A call that came out well answered its caller, and a handler that settled
      without answering is a call that did not. */
  lemma WellMeansAnswered(st: State, call: nat)
    requires Reachable(st) && call in st.ended && st.ended[call]
    ensures exists i :: 0 <= i < |st.sent| && st.sent[i].to == call
  {
    ReachableIsRight(st);
    ToldIs(st.sent);
  }

  lemma SettlingAnswersOrFails(st: State)
    requires Reachable(st) && st.phase.Handling? && Step(st, Settle).Some?
    ensures var next := Step(st, Settle).value;
            || (next.phase == Draining(st.phase.call) && WasSent(next, st.phase.call))
            || (next.phase == Idle && next.ended[st.phase.call] == false && !WasSent(next, st.phase.call))
  {
    ReachableIsRight(st);
    StepKeeps(st, Settle);
    assert OneFate(st, st.phase.call);
  }

  // The stream is not looked after the way the sink is.

  /** A handler that starts a stream and fails leaves its writer in the op
      state of an isolate with no call to run. */
  lemma WriterIsLeft() returns (run: seq<Action>, st: State)
    ensures Runs.After(Step, START, run) == Some(st)
    ensures st.phase == Idle && st.held.Some? && st.held.value.writing == Some(7)
    ensures st.ended == map[7 := false]
  {
    run, st := [], START;
    run, st := Runs.Then(Step, START, run, st, Arrive(7));
    run, st := Runs.Then(Step, START, run, st, Op(AnswerStart(200)));
    run, st := Runs.Then(Step, START, run, st, Fail);
  }

  predicate IsStart(a: Action) {
    a.Op? && a.op.AnswerStart?
  }

  predicate IsClose(a: Action) {
    a.Op? && (a.op.ChunkEnd? || a.op.ChunkFail?)
  }

  /** Here the function makes its first start of a streamed answer, with the
      handler still running. */
  predicate StartsAt(since: seq<Action>, i: nat) {
    && i < |since| && IsStart(since[i])
    && forall j :: 0 <= j < i ==> !IsStart(since[j]) && !since[j].Fail? && !since[j].Settle?
  }

  /** A stream was started and nothing since closed it. */
  ghost predicate IsLeftOpen(since: seq<Action>) {
    exists i: nat :: StartsAt(since, i) && forall j :: i < j < |since| ==> !IsClose(since[j])
  }

  /** Nothing yet has taken the call's sink. */
  ghost predicate IsUntaken(since: seq<Action>) {
    forall j :: 0 <= j < |since| ==> !IsStart(since[j]) && !since[j].Fail? && !since[j].Settle?
  }

  lemma StartsMore(since: seq<Action>, a: Action, i: nat)
    requires i < |since|
    ensures StartsAt(since + [a], i) <==> StartsAt(since, i)
  {
    assert forall j :: 0 <= j < |since| ==> (since + [a])[j] == since[j];
  }

  lemma OpenMore(since: seq<Action>, a: Action)
    ensures IsLeftOpen(since + [a]) <==> (IsLeftOpen(since) && !IsClose(a)) || (IsUntaken(since) && IsStart(a))
    ensures IsUntaken(since + [a]) <==> IsUntaken(since) && !IsStart(a) && !a.Fail? && !a.Settle?
  {
    var more := since + [a];
    assert forall j :: 0 <= j < |since| ==> more[j] == since[j];
    assert more[|since|] == a;
    if IsUntaken(since) && IsStart(a) {
      assert StartsAt(more, |since|);
    }
    if IsLeftOpen(since) && !IsClose(a) {
      var i: nat :| StartsAt(since, i) && forall j :: i < j < |since| ==> !IsClose(since[j]);
      StartsMore(since, a, i);
    }
    if IsLeftOpen(more) {
      var i: nat :| StartsAt(more, i) && forall j :: i < j < |more| ==> !IsClose(more[j]);
      if i < |since| {
        StartsMore(since, a, i);
        assert forall j :: i < j < |since| ==> !IsClose(since[j]) by {
          assert forall j :: i < j < |since| ==> !IsClose(more[j]);
        }
        assert !IsClose(more[|since|]);
      }
    }
  }

  /** Where the call's sink and writer are, by what was done since it came. */
  ghost predicate IsSince(st: State, call: nat, since: seq<Action>) {
    && st.held.Some? && st.held.value.call == call
    && st.held.value.sink == (if IsUntaken(since) then Some(call) else None)
    && st.held.value.writing == (if IsLeftOpen(since) then Some(call) else None)
  }

  lemma SinceMore(st: State, call: nat, since: seq<Action>, a: Action)
    requires IsSince(st, call, since) && !a.Arrive? && Step(st, a).Some?
    ensures IsSince(Step(st, a).value, call, since + [a])
  {
    OpenMore(since, a);
  }

  ghost predicate HasNoArrival(since: seq<Action>) {
    forall i :: 0 <= i < |since| ==> !since[i].Arrive?
  }

  lemma {:induction false} SinceIs(st: State, call: nat, done: seq<Action>, since: seq<Action>, end: State)
    requires IsSince(st, call, done) && HasNoArrival(since) && Runs.After(Step, st, since) == Some(end)
    ensures IsSince(end, call, done + since)
    decreases |since|
  {
    if since == [] {
      assert done + since == done;
    } else {
      SinceMore(st, call, done, since[0]);
      SinceIs(Step(st, since[0]).value, call, done + [since[0]], since[1..], end);
      assert done + [since[0]] + since[1..] == done + since;
    }
  }

  /** From a call's arrival to the next, through its failing, its settling and
      after it is over, its writer is in the op state if and only if the function
      started a stream while its handler ran and has neither ended nor failed it
      since. */
  lemma WriterIsLeftIff(st: State, call: nat, since: seq<Action>, end: State)
    requires Step(st, Arrive(call)).Some? && HasNoArrival(since)
    requires Runs.After(Step, Step(st, Arrive(call)).value, since) == Some(end)
    ensures end.held.Some? && (end.held.value.writing == Some(call) <==> IsLeftOpen(since))
    ensures end.held.value.writing.Some? ==> end.held.value.writing == Some(call)
  {
    SinceIs(Step(st, Arrive(call)).value, call, [], since, end);
    assert [] + since == since;
  }

  /** Whether an op works, by what was done since the call came: a start if and
      only if nothing took the sink, a chunk if and only if the stream is open and
      being read, and the rest always. One that does not work changes nothing. */
  lemma OpsWorkIff(st: State, call: nat, since: seq<Action>, end: State, op: Request)
    requires Step(st, Arrive(call)).Some? && HasNoArrival(since)
    requires Runs.After(Step, Step(st, Arrive(call)).value, since) == Some(end)
    ensures Made(end, op).0 <==>
            match op
            case AnswerStart(_) =>
              forall j :: 0 <= j < |since| ==> !IsStart(since[j]) && !since[j].Fail? && !since[j].Settle?
            case WriteChunk(_, read) => read && IsLeftOpen(since)
            case _ => true
    ensures !Made(end, op).0 ==> Made(end, op).1 == end
  {
    SinceIs(Step(st, Arrive(call)).value, call, [], since, end);
    assert [] + since == since;
  }

  /** Before the first call no op works. */
  lemma {:induction false} OpsNeedACall(run: seq<Action>, st: State, op: Request)
    requires Runs.After(Step, START, run) == Some(st) && HasNoArrival(run)
    ensures st == START && !Made(st, op).0
  {
    if run != [] {
      assert Step(START, run[0]) == Some(START);
      OpsNeedACall(run[1..], st, op);
    }
  }

  // What a caller is sent, by what was done since its call came.

  /** The status a caller is due: that of the first start while the handler runs,
      or else of the last answer set before the handler settled. */
  function Due(since: seq<Action>, last: Option<nat>): Option<nat>
    decreases |since|
  {
    if since == [] then None
    else
      match since[0]
      case Op(AnswerStart(status)) => Some(status)
      case Op(AnswerAll(status)) => Due(since[1..], Some(status))
      case Settle => last
      case Fail => None
      case _ => Due(since[1..], last)
  }

  /** The bytes of a stream, in order: those written from its start to its first
      end or failure that the caller was still reading for. */
  function Streamed(since: seq<Action>, started: bool, open: bool): seq<seq<byte>>
    decreases |since|
  {
    if since == [] then []
    else StreamedBy(since[0], open)
         + Streamed(since[1..], started || EndsTheWait(since[0]), if started then open && !IsClose(since[0]) else IsStart(since[0]))
  }

  function StreamedBy(a: Action, open: bool): seq<seq<byte>> {
    if open && a.Op? && a.op.WriteChunk? && a.op.read then [a.op.bytes] else []
  }

  predicate EndsTheWait(a: Action) {
    a.Fail? || a.Settle? || IsStart(a)
  }

  function ChunksTo(call: nat, chunks: seq<Chunk>): seq<seq<byte>> {
    if chunks == [] then []
    else ChunksTo(call, chunks[..|chunks| - 1])
         + if chunks[|chunks| - 1].to == call then [chunks[|chunks| - 1].bytes] else []
  }

  lemma ChunksMore(call: nat, chunks: seq<Chunk>, one: Chunk)
    ensures ChunksTo(call, chunks + [one]) == ChunksTo(call, chunks) + if one.to == call then [one.bytes] else []
  {
    assert (chunks + [one])[..|chunks|] == chunks;
  }

  /** The call's own sink has not been taken, and this is the last answer set. */
  ghost predicate IsUndecided(st: State, call: nat, last: Option<nat>) {
    && st.phase == Handling(call) && st.held.Some? && st.held.value.call == call
    && st.held.value.sink == Some(call)
    && st.held.value.answered == (if last.Some? then Some(Answer(last.value, Handling(call))) else None)
  }

  ghost predicate IsDecided(st: State, call: nat) {
    st.held.Some? && st.held.value.call == call && st.held.value.sink.None?
  }

  function SentFor(call: nat, due: Option<nat>): seq<Sent> {
    if due.Some? then [Sent(call, Answer(due.value, Handling(call)))] else []
  }

  lemma {:induction false} NothingMoreIsSent(st: State, call: nat, since: seq<Action>, end: State)
    requires IsDecided(st, call) && HasNoArrival(since) && Runs.After(Step, st, since) == Some(end)
    ensures end.sent == st.sent
    decreases |since|
  {
    if since != [] {
      NothingMoreIsSent(Step(st, since[0]).value, call, since[1..], end);
    }
  }

  lemma {:induction false} SentFrom(st: State, call: nat, last: Option<nat>, since: seq<Action>, end: State)
    requires IsUndecided(st, call, last) && HasNoArrival(since) && Runs.After(Step, st, since) == Some(end)
    ensures end.sent == st.sent + SentFor(call, Due(since, last))
    decreases |since|
  {
    if since != [] {
      var a, next := since[0], Step(st, since[0]).value;
      if IsStart(a) || a.Settle? || a.Fail? {
        NothingMoreIsSent(next, call, since[1..], end);
      } else {
        var last' := if a.Op? && a.op.AnswerAll? then Some(a.op.status) else last;
        SentFrom(next, call, last', since[1..], end);
      }
    }
  }

  /** From a call's arrival to the next, exactly what is due is sent, and to this
      caller: the status of the start that sent it, or of the last answer set. */
  lemma SentIsDue(st: State, call: nat, since: seq<Action>, end: State)
    requires Step(st, Arrive(call)).Some? && HasNoArrival(since)
    requires Runs.After(Step, Step(st, Arrive(call)).value, since) == Some(end)
    ensures end.sent == st.sent + SentFor(call, Due(since, None))
  {
    SentFrom(Step(st, Arrive(call)).value, call, None, since, end);
  }

  /** Whether the call's stream was started, and is open. */
  ghost predicate IsStreaming(st: State, call: nat, started: bool, open: bool) {
    && st.held.Some? && st.held.value.call == call
    && (started <==> st.held.value.sink.None?) && (!started ==> st.held.value.sink == Some(call))
    && st.held.value.writing == (if open then Some(call) else None)
    && (open ==> started)
  }

  lemma StreamStep(st: State, call: nat, started: bool, open: bool, a: Action)
    requires IsStreaming(st, call, started, open) && !a.Arrive? && Step(st, a).Some?
    ensures IsStreaming(Step(st, a).value, call, started || EndsTheWait(a), if started then open && !IsClose(a) else IsStart(a))
  {
  }

  ghost function ChunkOf(st: State, call: nat, open: bool, a: Action): seq<Chunk> {
    if open && a.Op? && a.op.WriteChunk? && a.op.read then [Chunk(call, a.op.bytes, st.phase)] else []
  }

  lemma ChunkWritten(st: State, call: nat, started: bool, open: bool, a: Action)
    requires IsStreaming(st, call, started, open) && !a.Arrive? && Step(st, a).Some?
    ensures Step(st, a).value.chunks == st.chunks + ChunkOf(st, call, open, a)
  {
  }

  lemma ChunkStep(st: State, call: nat, started: bool, open: bool, a: Action)
    requires IsStreaming(st, call, started, open) && !a.Arrive? && Step(st, a).Some?
    ensures ChunksTo(call, Step(st, a).value.chunks) == ChunksTo(call, st.chunks) + StreamedBy(a, open)
  {
    var written := ChunkOf(st, call, open, a);
    ChunkWritten(st, call, started, open, a);
    if written != [] {
      ChunksMore(call, st.chunks, written[0]);
      assert st.chunks + written == st.chunks + [written[0]];
    } else {
      assert st.chunks + written == st.chunks;
      assert ChunksTo(call, st.chunks) + [] == ChunksTo(call, st.chunks);
    }
  }

  lemma Regroup(a: seq<seq<byte>>, b: seq<seq<byte>>, c: seq<seq<byte>>)
    ensures (a + b) + c == a + (b + c)
  {
  }

  lemma {:induction false} StreamedFrom(st: State, call: nat, started: bool, open: bool, since: seq<Action>, end: State)
    requires IsStreaming(st, call, started, open) && HasNoArrival(since) && Runs.After(Step, st, since) == Some(end)
    ensures ChunksTo(call, end.chunks) == ChunksTo(call, st.chunks) + Streamed(since, started, open)
    decreases |since|
  {
    if since != [] {
      var a := since[0];
      StreamStep(st, call, started, open, a);
      ChunkStep(st, call, started, open, a);
      var started', open' := started || EndsTheWait(a), if started then open && !IsClose(a) else IsStart(a);
      StreamedFrom(Step(st, a).value, call, started', open', since[1..], end);
      Regroup(ChunksTo(call, st.chunks), StreamedBy(a, open), Streamed(since[1..], started', open'));
    }
  }

  /** And exactly the bytes of its stream reach the caller, in the order they were
      written. */
  lemma ChunksAreStreamed(st: State, call: nat, since: seq<Action>, end: State)
    requires Step(st, Arrive(call)).Some? && HasNoArrival(since)
    requires Runs.After(Step, Step(st, Arrive(call)).value, since) == Some(end)
    ensures ChunksTo(call, end.chunks) == ChunksTo(call, st.chunks) + Streamed(since, false, false)
  {
    StreamedFrom(Step(st, Arrive(call)).value, call, false, false, since, end);
  }

  /** Whether the function failed its stream while it was open. */
  predicate BrokenOff(since: seq<Action>, started: bool, open: bool)
    decreases |since|
  {
    since != [] &&
    var a := since[0];
    || (open && a == Op(ChunkFail))
    || BrokenOff(since[1..], started || EndsTheWait(a), if started then open && !IsClose(a) else IsStart(a))
  }

  lemma FailedStep(st: State, call: nat, started: bool, open: bool, a: Action)
    requires IsStreaming(st, call, started, open) && !a.Arrive? && Step(st, a).Some?
    ensures Step(st, a).value.failed == st.failed + if open && a == Op(ChunkFail) then [call] else []
  {
  }

  lemma {:induction false} ClosedIsNotBroken(since: seq<Action>)
    ensures !BrokenOff(since, true, false)
  {
    if since != [] {
      ClosedIsNotBroken(since[1..]);
    }
  }

  lemma {:induction false} BrokenFrom(st: State, call: nat, started: bool, open: bool, since: seq<Action>, end: State)
    requires IsStreaming(st, call, started, open) && HasNoArrival(since) && Runs.After(Step, st, since) == Some(end)
    ensures end.failed == st.failed + if BrokenOff(since, started, open) then [call] else []
    decreases |since|
  {
    if since != [] {
      var a := since[0];
      StreamStep(st, call, started, open, a);
      FailedStep(st, call, started, open, a);
      var started', open' := started || EndsTheWait(a), if started then open && !IsClose(a) else IsStart(a);
      BrokenFrom(Step(st, a).value, call, started', open', since[1..], end);
      if open && a == Op(ChunkFail) {
        ClosedIsNotBroken(since[1..]);
      }
    }
  }

  /** A caller's stream is broken off exactly when the function failed it, once. */
  lemma StreamIsBrokenOffIff(st: State, call: nat, since: seq<Action>, end: State)
    requires Step(st, Arrive(call)).Some? && HasNoArrival(since)
    requires Runs.After(Step, Step(st, Arrive(call)).value, since) == Some(end)
    ensures end.failed == st.failed + if BrokenOff(since, false, false) then [call] else []
  {
    BrokenFrom(Step(st, Arrive(call)).value, call, false, false, since, end);
  }

  /** How a call comes out: badly when its handler fails or settles without having
      answered, and otherwise as what it left running does. */
  function Outcome(since: seq<Action>, answered: bool): Option<bool>
    decreases |since|
  {
    if since == [] then None
    else
      match since[0]
      case Fail => Some(false)
      case Settle => if answered then LeftToDrain(since[1..]) else Some(false)
      case Op(op) => Outcome(since[1..], answered || op.AnswerAll? || op.AnswerStart?)
      case _ => Outcome(since[1..], answered)
  }

  function LeftToDrain(since: seq<Action>): Option<bool>
    decreases |since|
  {
    if since == [] then None else if since[0].Drain? then Some(since[0].ok) else LeftToDrain(since[1..])
  }

  function WithOutcome(ended: map<nat, bool>, call: nat, outcome: Option<bool>): map<nat, bool> {
    if outcome.Some? then ended[call := outcome.value] else ended
  }

  lemma {:induction false} NothingEndsIdle(st: State, since: seq<Action>, end: State)
    requires st.phase == Idle && HasNoArrival(since) && Runs.After(Step, st, since) == Some(end)
    ensures end.ended == st.ended
    decreases |since|
  {
    if since != [] {
      NothingEndsIdle(Step(st, since[0]).value, since[1..], end);
    }
  }

  lemma {:induction false} DrainsAs(st: State, call: nat, since: seq<Action>, end: State)
    requires st.phase == Draining(call) && HasNoArrival(since) && Runs.After(Step, st, since) == Some(end)
    ensures end.ended == WithOutcome(st.ended, call, LeftToDrain(since))
    decreases |since|
  {
    if since != [] {
      var next := Step(st, since[0]).value;
      if since[0].Drain? {
        NothingEndsIdle(next, since[1..], end);
      } else {
        DrainsAs(next, call, since[1..], end);
      }
    }
  }

  lemma {:induction false} EndsAs(st: State, call: nat, answered: bool, since: seq<Action>, end: State)
    requires st.phase == Handling(call) && st.held.Some?
    requires answered <==> st.held.value.sink.None? || st.held.value.answered.Some?
    requires HasNoArrival(since) && Runs.After(Step, st, since) == Some(end)
    ensures end.ended == WithOutcome(st.ended, call, Outcome(since, answered))
    decreases |since|
  {
    if since != [] {
      var a, next := since[0], Step(st, since[0]).value;
      if a.Fail? || (a.Settle? && !answered) {
        NothingEndsIdle(next, since[1..], end);
      } else if a.Settle? {
        DrainsAs(next, call, since[1..], end);
      } else {
        EndsAs(next, call, answered || (a.Op? && (a.op.AnswerAll? || a.op.AnswerStart?)), since[1..], end);
      }
    }
  }

  /** From a call's arrival to the next, what is known of how it came out is its
      outcome, and nothing else is known of any other. */
  lemma EndedIsTheOutcome(st: State, call: nat, since: seq<Action>, end: State)
    requires Step(st, Arrive(call)).Some? && HasNoArrival(since)
    requires Runs.After(Step, Step(st, Arrive(call)).value, since) == Some(end)
    ensures end.ended == WithOutcome(st.ended, call, Outcome(since, false))
  {
    EndsAs(Step(st, Arrive(call)).value, call, false, since, end);
  }

  // The op state itself, which the ops and the call change in place.

  class OpState {
    var held: Option<Held>
    var phase: Phase
    var arrived: set<nat>
    var sent: seq<Sent>
    var dropped: set<nat>
    var chunks: seq<Chunk>
    var failed: seq<nat>
    var ended: map<nat, bool>

    function Now(): State
      reads this
    {
      State(held, phase, arrived, sent, dropped, chunks, failed, ended)
    }

    constructor ()
      ensures Now() == START
    {
      held, phase, arrived, sent := None, Idle, {}, [];
      dropped, chunks, failed, ended := {}, [], [], map[];
    }

    method SetAnswer(status: nat) returns (ok: bool)
      modifies this
      ensures (ok, Now()) == OpAnswer(old(Now()), status)
    {
      if held.None? {
        return false;
      }
      held := Some(held.value.(answered := Some(Answer(status, phase))));
      return true;
    }

    method StartAnswer(status: nat) returns (ok: bool)
      modifies this
      ensures (ok, Now()) == OpAnswerStart(old(Now()), status)
    {
      if held.None? || held.value.sink.None? {
        return false;
      }
      var to := held.value.sink.value;
      held := Some(held.value.(sink := None));
      held := Some(held.value.(writing := Some(to)));
      sent := sent + [Sent(to, Answer(status, phase))];
      return true;
    }

    method Write(bytes: seq<byte>, read: bool) returns (ok: bool)
      modifies this
      ensures (ok, Now()) == OpChunk(old(Now()), bytes, read)
    {
      if held.None? || held.value.writing.None? || !read {
        return false;
      }
      chunks := chunks + [Chunk(held.value.writing.value, bytes, phase)];
      return true;
    }

    method EndWriting() returns (ok: bool)
      modifies this
      ensures (ok, Now()) == OpChunkEnd(old(Now()))
    {
      if held.None? {
        return false;
      }
      held := Some(held.value.(writing := None));
      return true;
    }

    method FailWriting() returns (ok: bool)
      modifies this
      ensures (ok, Now()) == OpChunkFail(old(Now()))
    {
      if held.None? {
        return false;
      }
      if held.value.writing.Some? {
        failed := failed + [held.value.writing.value];
        held := Some(held.value.(writing := None));
      }
      return true;
    }

    method Put(call: nat)
      requires Step(Now(), Arrive(call)).Some?
      modifies this
      ensures Some(Now()) == Step(old(Now()), Arrive(call))
    {
      held := Some(Held(call, None, Some(call), None));
      phase, arrived := Handling(call), arrived + {call};
    }

    /** Both come out of the op state together, whatever is done with them. */
    method TakeBoth() returns (answer: Option<Answer>, sink: Option<nat>)
      requires held.Some?
      modifies this`held
      ensures held == Some(old(held).value.(answered := None, sink := None))
      ensures answer == old(held).value.answered && sink == old(held).value.sink
    {
      answer, sink := held.value.answered, held.value.sink;
      held := Some(held.value.(answered := None, sink := None));
    }

    method Ran(ok: bool)
      requires phase.Handling? && held.Some?
      modifies this
      ensures Some(Now()) == Step(old(Now()), if ok then Settle else Fail)
      ensures held.Some? && held.value.answered.None? && held.value.sink.None?
    {
      var call := phase.call;
      var answer, sink := TakeBoth();
      if !ok {
        dropped := dropped + (if sink.Some? then {sink.value} else {});
        phase, ended := Idle, ended[call := false];
      } else if sink.None? {
        phase := Draining(call);
      } else if answer.Some? {
        sent := sent + [Sent(sink.value, answer.value)];
        phase := Draining(call);
      } else {
        dropped := dropped + {sink.value};
        phase, ended := Idle, ended[call := false];
      }
    }
  }
}
