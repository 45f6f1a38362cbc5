/** Who may judge a window to be litter, and how often a window is put, in every
    run of the takeover as the code takes it: whatever is deleted and whenever it
    arrives. */
module Judging {
  import opened Wrappers
  import opened Chain
  import opened Takeover
  import Runs

  // What a step does to the lines.

  predicate IsAboutAPut(a: Action) {
    a.Land? || a.Look? || a.Check? || a.Clear? || a.Reput?
  }

  /** What the put an action is about comes to. */
  function PutAfter(st: State, a: Action): Put
    requires Enabled(st, a) && IsAboutAPut(a)
  {
    Next(st, a).lines[a.line].puts[a.at]
  }

  lemma PutActionIs(st: State, a: Action)
    requires Enabled(st, a) && IsAboutAPut(a)
    ensures a.line in st.lines && a.at in st.lines[a.line].puts
    ensures Next(st, a).lines == PutTo(st.lines, a.line, a.at, PutAfter(st, a))
    ensures Next(st, a).cursors == st.cursors && Next(st, a).takers == st.takers
    ensures Next(st, a).version == st.version && Next(st, a).head == st.head
  {
  }

  lemma DispatchIs(st: State, a: Action)
    requires Enabled(st, a) && a.Dispatch?
    ensures a.line in st.lines && a.line in st.cursors
    ensures var cursor := st.cursors[a.line];
            && Next(st, a).lines == PutTo(st.lines, a.line, cursor.next, Flying)
            && Next(st, a).cursors == st.cursors[a.line := cursor.(next := cursor.next + 1)]
    ensures Next(st, a).takers == st.takers && Next(st, a).version == st.version && Next(st, a).head == st.head
  {
  }

  lemma SwapIs(st: State, a: Action)
    requires Enabled(st, a) && a.Swap?
    ensures || (Next(st, a).lines == st.lines && Next(st, a).version == st.version)
            || (&& Next(st, a).version == st.version + 1
                && exists line: Line :: line.puts == map[] && Next(st, a).lines == st.lines[st.version + 1 := line])
  {
    if TakerOf(st, a.taker).version == st.version {
      assert Next(st, a).lines == st.lines[st.version + 1 := Line(TakerOf(st, a.taker).at, map[], a.tails)];
    }
  }

  predicate LeavesTheLines(a: Action) {
    !a.Swap? && !a.Dispatch? && !IsAboutAPut(a)
  }

  lemma OtherActionsAre(st: State, a: Action)
    requires Enabled(st, a) && LeavesTheLines(a)
    ensures Next(st, a).lines == st.lines && Next(st, a).version == st.version && Next(st, a).head == st.head
  {
  }

  // What holds of the manifest and the lines, whatever is in the store.

  /** A line the manifest does not name sealed below the one it does. */
  ghost predicate IsBelow(st: State, l: nat) {
    && l in st.lines && l in st.cursors
    && 1 <= l <= st.version
    && st.lines[l].sealed <= st.head && (st.lines[l].sealed == st.head <==> l == st.version)
    && forall n :: n in st.lines[l].puts ==> n < st.cursors[l].next
  }

  ghost predicate IsAhead(st: State, taker: Taker) {
    match taker
    case Idle => true
    case Loaded(v, floor) => v <= st.version && (v == st.version ==> floor >= st.head)
    case Found(v, at, _) => v <= st.version && (v == st.version ==> at >= st.head)
    case Sealed(v, at) => v <= st.version && (v == st.version ==> at > st.head)
  }

  ghost predicate InOrder(st: State) {
    && (forall l :: l in st.lines || l in st.cursors ==> IsBelow(st, l))
    && (forall t :: t in st.takers ==> IsAhead(st, st.takers[t]))
  }

  lemma SwapKeepsOrder(st: State, a: Action)
    requires InOrder(st) && Enabled(st, a) && a.Swap?
    ensures InOrder(Next(st, a))
  {
    var next := Next(st, a);
    assert IsAhead(st, TakerOf(st, a.taker));
    forall l | l in next.lines || l in next.cursors
      ensures IsBelow(next, l)
    {
      assert l in st.lines ==> IsBelow(st, l);
    }
    forall t | t in next.takers
      ensures IsAhead(next, next.takers[t])
    {
      assert t in st.takers ==> IsAhead(st, st.takers[t]);
    }
  }

  lemma TakerKeepsOrder(st: State, a: Action)
    requires InOrder(st) && Enabled(st, a) && (a.Load? || a.Find? || a.PutSeal?)
    ensures InOrder(Next(st, a))
  {
    var next := Next(st, a);
    assert IsAhead(st, TakerOf(st, a.taker));
    forall l | l in next.lines || l in next.cursors
      ensures IsBelow(next, l)
    {
      assert IsBelow(st, l);
    }
    forall t | t in next.takers
      ensures IsAhead(next, next.takers[t])
    {
      assert t in st.takers ==> IsAhead(st, st.takers[t]);
    }
  }

  lemma CursorMoves(st: State, a: Action)
    requires Enabled(st, a) && (a.Probe? || a.Fetch? || a.Delete? || a.EndSweep? || a.Resolve?)
    ensures a.line in st.cursors && a.line in Next(st, a).cursors
    ensures var cursor := Next(st, a).cursors[a.line];
            Next(st, a).cursors == st.cursors[a.line := cursor] && cursor.next == st.cursors[a.line].next
    ensures Next(st, a).takers == st.takers
  {
  }

  lemma PutKeepsOrder(st: State, a: Action)
    requires InOrder(st) && Enabled(st, a) && IsAboutAPut(a)
    ensures InOrder(Next(st, a))
  {
    PutActionIs(st, a);
    assert IsBelow(st, a.line);
    SameOrder(st, Next(st, a));
  }

  lemma DispatchKeepsOrder(st: State, a: Action)
    requires InOrder(st) && Enabled(st, a) && a.Dispatch?
    ensures InOrder(Next(st, a))
  {
    DispatchIs(st, a);
    SameOrder(st, Next(st, a));
  }

  lemma CursorKeepsOrder(st: State, a: Action)
    requires InOrder(st) && Enabled(st, a) && (a.Probe? || a.Fetch? || a.Delete? || a.EndSweep? || a.Resolve?)
    ensures InOrder(Next(st, a))
  {
    OtherActionsAre(st, a);
    CursorMoves(st, a);
    SameOrder(st, Next(st, a));
  }

  lemma SameOrder(st: State, next: State)
    requires InOrder(st) && next.version == st.version && next.head == st.head && next.takers == st.takers
    requires next.lines.Keys == st.lines.Keys && next.cursors.Keys == st.cursors.Keys
    requires forall l :: l in st.lines && l in st.cursors ==>
               && next.lines[l].sealed == st.lines[l].sealed && st.cursors[l].next <= next.cursors[l].next
               && forall n :: n in next.lines[l].puts ==> n in st.lines[l].puts || n < next.cursors[l].next
    ensures InOrder(next)
  {
    forall l | l in next.lines || l in next.cursors
      ensures IsBelow(next, l)
    {
      assert IsBelow(st, l);
    }
    forall t | t in next.takers
      ensures IsAhead(next, next.takers[t])
    {
      assert IsAhead(st, st.takers[t]);
    }
  }

  lemma StepKeepsOrder(st: State, a: Action)
    requires InOrder(st) && Step(st, a).Some?
    ensures InOrder(Step(st, a).value)
  {
    if a.Swap? {
      SwapKeepsOrder(st, a);
    } else if a.Load? || a.Find? || a.PutSeal? {
      TakerKeepsOrder(st, a);
    } else if a.Dispatch? {
      DispatchKeepsOrder(st, a);
    } else if IsAboutAPut(a) {
      PutKeepsOrder(st, a);
    } else {
      CursorKeepsOrder(st, a);
    }
  }

  lemma RunKeepsOrder(st: State, run: seq<Action>)
    requires InOrder(st) && Runs.After(Step, st, run).Some?
    ensures InOrder(Runs.After(Step, st, run).value)
  {
    forall s, a | InOrder(s) && Step(s, a).Some?
      ensures InOrder(Step(s, a).value)
    {
      StepKeepsOrder(s, a);
    }
    Runs.Always(Step, InOrder, st, run);
  }

  lemma ReachedInOrder(st: State)
    requires Reached(st)
    ensures InOrder(st)
  {
    var run :| Runs.After(Step, START, run) == Some(st);
    RunKeepsOrder(START, run);
  }

  // Judging.

  /** A position comes to be judged by one action, while the manifest names the
      line that judges. */
  lemma JudgedNow(st: State, a: Action, l: nat, n: nat)
    requires InOrder(st) && Step(st, a).Some? && PutIs(Step(st, a).value, l, n, Doomed)
    ensures PutIs(st, l, n, Doomed) || (a == Check(l, n) && st.version == l && PutIs(st, l, n, Suspect))
  {
    if IsAboutAPut(a) {
      PutActionIs(st, a);
      assert IsBelow(st, a.line);
      if a.line == l && a.at == n {
        JudgingIs(st, a);
      }
    } else if a.Dispatch? {
      DispatchIs(st, a);
    } else if a.Swap? {
      SwapIs(st, a);
    } else {
      OtherActionsAre(st, a);
    }
  }

  lemma JudgingIs(st: State, a: Action)
    requires Enabled(st, a) && IsAboutAPut(a) && PutAfter(st, a) == Doomed
    ensures a.Check? && PutIs(st, a.line, a.at, Suspect) && st.lines[a.line].sealed == st.head
  {
  }

  /** The manifest names it no longer, and never will again. */
  ghost predicate IsFencedOff(st: State, l: nat) {
    l in st.lines && l != st.version
  }

  lemma FencedOffForGood(st: State, a: Action, l: nat)
    requires InOrder(st) && IsFencedOff(st, l) && Step(st, a).Some?
    ensures IsFencedOff(Step(st, a).value, l)
  {
    assert IsBelow(st, l);
    if IsAboutAPut(a) {
      PutActionIs(st, a);
    } else if a.Dispatch? {
      DispatchIs(st, a);
    } else if a.Swap? {
      SwapIs(st, a);
    } else {
      OtherActionsAre(st, a);
    }
  }

  ghost predicate JudgesNoMore(st: State, l: nat, judged: set<nat>) {
    InOrder(st) && IsFencedOff(st, l) && forall n :: PutIs(st, l, n, Doomed) ==> n in judged
  }

  /** From where the manifest names another line, whatever arrives after, no
      position of the line comes to be judged that was not judged already. */
  lemma FencedLinesJudgeNothing(st: State, l: nat, n: nat, run: seq<Action>, end: State)
    requires Reached(st) && IsFencedOff(st, l)
    requires Runs.After(Step, st, run) == Some(end) && PutIs(end, l, n, Doomed)
    ensures PutIs(st, l, n, Doomed)
  {
    ReachedInOrder(st);
    var judged := set m | m in st.lines[l].puts && st.lines[l].puts[m].Doomed?;
    forall s, a | JudgesNoMore(s, l, judged) && Step(s, a).Some?
      ensures JudgesNoMore(Step(s, a).value, l, judged)
    {
      StepKeepsOrder(s, a);
      FencedOffForGood(s, a, l);
      forall m | PutIs(Step(s, a).value, l, m, Doomed)
        ensures m in judged
      {
        JudgedNow(s, a, l, m);
      }
    }
    Runs.Always(Step, s => JudgesNoMore(s, l, judged), st, run);
  }

  lemma {:induction false} JudgedInRun(run: seq<Action>, end: State, l: nat, n: nat) returns (k: nat, mid: State)
    requires Runs.After(Step, START, run) == Some(end) && PutIs(end, l, n, Doomed)
    ensures k < |run| && run[k] == Check(l, n)
    ensures Runs.After(Step, START, run[..k]) == Some(mid) && mid.version == l
    decreases |run|
  {
    var last := |run| - 1;
    assert run == run[..last] + [run[last]];
    Runs.Join(Step, START, run[..last], [run[last]]);
    var before := Runs.After(Step, START, run[..last]).value;
    assert Runs.After(Step, Step(before, run[last]).value, []) == Some(end);
    RunKeepsOrder(START, run[..last]);
    JudgedNow(before, run[last], l, n);
    if PutIs(before, l, n, Doomed) {
      k, mid := JudgedInRun(run[..last], before, l, n);
      assert run[..last][..k] == run[..k];
    } else {
      k, mid := last, before;
    }
  }

  /** A delete on its way to a taken position was judged for by its own line, at a
      moment when the manifest named that line. */
  lemma ClearsWereJudged(run: seq<Action>, st: State, l: nat, n: nat) returns (k: nat, mid: State)
    requires Runs.After(Step, START, run) == Some(st) && Enabled(st, Clear(l, n))
    ensures k < |run| && run[k] == Check(l, n)
    ensures Runs.After(Step, START, run[..k]) == Some(mid) && mid.version == l
  {
    k, mid := JudgedInRun(run, st, l, n);
  }

  // Putting.

  /** How far a put has come: the first request, three looks at what took its
      place, the second request, and an end. */
  function Stage(p: Put): nat {
    match p
    case Flying => 0
    case Taken => 1
    case Suspect => 2
    case Doomed => 3
    case Again => 4
    case Landed => 5
    case Lost => 5
  }

  /** How many requests a put has still to make, at most. */
  function PutsLeft(p: Put): nat {
    if p.Landed? || p.Lost? then 0 else if p.Flying? then 2 else 1
  }

  lemma PutsGoOn(st: State, a: Action)
    requires Enabled(st, a) && IsAboutAPut(a) && a.line in st.lines && a.at in st.lines[a.line].puts
    ensures Stage(st.lines[a.line].puts[a.at]) < Stage(PutAfter(st, a))
    ensures a.Land? || a.Reput? ==> PutsLeft(PutAfter(st, a)) < PutsLeft(st.lines[a.line].puts[a.at])
  {
  }

  /** Every request about a window takes it further, so no window is put more than
      twice, and one that landed or was lost stays so. */
  lemma PutsGoForward(st: State, a: Action, l: nat, n: nat)
    requires Reached(st) && Step(st, a).Some? && l in st.lines && n in st.lines[l].puts
    ensures var next := Step(st, a).value;
            && l in next.lines && n in next.lines[l].puts
            && (next.lines[l].puts[n] != st.lines[l].puts[n] ==>
                  Stage(st.lines[l].puts[n]) < Stage(next.lines[l].puts[n]))
            && (a == Land(l, n) || a == Reput(l, n) ==>
                  PutsLeft(next.lines[l].puts[n]) < PutsLeft(st.lines[l].puts[n]))
  {
    ReachedInOrder(st);
    assert IsBelow(st, l);
    if IsAboutAPut(a) {
      PutActionIs(st, a);
      PutsGoOn(st, a);
    } else if a.Dispatch? {
      DispatchIs(st, a);
    } else if a.Swap? {
      SwapIs(st, a);
    } else {
      OtherActionsAre(st, a);
    }
  }
}
