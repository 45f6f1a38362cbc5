/** Array buffer bytes, counted by any number of threads at once.

    An allocation adds its length to one shared count, looks at the total that
    add produced, and either keeps the bytes or gives them back and records
    the limit. A release frees first and gives back after. Each of those is a
    step of its own, so a request being refused is in the count while others
    decide. The requests in the count are kept in the order of their adds,
    which is the order the bound is about. */
module BufferBudget {
  import opened Wrappers
  import opened WatchCells
  import opened Runs

  datatype Phase = Took | Refusing | Live | Freed

  /** `held` is the total the request's own add produced. */
  datatype Request = Request(len: nat, held: nat, phase: Phase)

  /** `owed` refusals have given their bytes back and not recorded the limit
      yet; `refused` ones have returned. */
  datatype State = State(cells: Cells, limit: nat, out: seq<Request>, owed: nat, refused: nat)

  datatype Action =
    | Take(len: nat)
    | Decide(i: nat)
    | GiveBack(i: nat)
    | RecordRefusal
    | Free(i: nat)
    | RecordOther(what: Limit)

  ghost predicate Init(st: State) {
    st.cells.buffers == 0 && st.out == [] && st.owed == 0 && st.refused == 0
  }

  predicate TooMuch(limit: nat, r: Request) {
    r.len > limit || r.held > BURST * limit
  }

  predicate Enabled(st: State, a: Action) {
    match a
    case Take(_) => true
    case Decide(i) => i < |st.out| && st.out[i].phase.Took?
    case GiveBack(i) =>
      i < |st.out| && (st.out[i].phase.Refusing? || st.out[i].phase.Freed?) && st.out[i].len <= st.cells.buffers
    case RecordRefusal => st.owed > 0
    case Free(i) => i < |st.out| && st.out[i].phase.Live?
    case RecordOther(_) => true
  }

  function Next(st: State, a: Action): State
    requires Enabled(st, a)
  {
    match a
    case Take(len) =>
      var cells := AddBuffers(st.cells, len);
      st.(cells := cells, out := st.out + [Request(len, cells.buffers, Took)])
    case Decide(i) =>
      var phase := if TooMuch(st.limit, st.out[i]) then Refusing else Live;
      st.(out := st.out[i := st.out[i].(phase := phase)])
    case GiveBack(i) =>
      st.(cells := SubBuffers(st.cells, st.out[i].len),
          out := st.out[..i] + st.out[i + 1..],
          owed := if st.out[i].phase.Refusing? then st.owed + 1 else st.owed)
    case RecordRefusal =>
      st.(cells := CasHit(st.cells, Memory), owed := st.owed - 1, refused := st.refused + 1)
    case Free(i) =>
      st.(out := st.out[i := st.out[i].(phase := Freed)])
    case RecordOther(what) =>
      st.(cells := CasHit(st.cells, what))
  }

  function Step(st: State, a: Action): Option<State> {
    if Enabled(st, a) then Some(Next(st, a)) else None
  }

  // Sums of requests.

  function Bytes(out: seq<Request>): nat {
    if out == [] then 0 else Bytes(out[..|out| - 1]) + out[|out| - 1].len
  }

  /** The bytes the function really holds, and the rest of the count. */
  function LiveBytes(out: seq<Request>): nat {
    if out == [] then 0
    else LiveBytes(out[..|out| - 1]) + if out[|out| - 1].phase.Live? then out[|out| - 1].len else 0
  }

  function PassingBytes(out: seq<Request>): nat {
    if out == [] then 0
    else PassingBytes(out[..|out| - 1]) + if out[|out| - 1].phase.Live? then 0 else out[|out| - 1].len
  }

  lemma {:induction false} BytesSplit(out: seq<Request>)
    ensures Bytes(out) == LiveBytes(out) + PassingBytes(out)
  {
    if out != [] {
      BytesSplit(out[..|out| - 1]);
    }
  }

  lemma {:induction false} SameLengths(a: seq<Request>, b: seq<Request>)
    requires |a| == |b| && forall i :: 0 <= i < |a| ==> a[i].len == b[i].len
    ensures Bytes(a) == Bytes(b)
  {
    if a != [] {
      SameLengths(a[..|a| - 1], b[..|b| - 1]);
    }
  }

  lemma {:induction false} BytesWithout(out: seq<Request>, i: nat)
    requires i < |out|
    ensures Bytes(out) == Bytes(out[..i] + out[i + 1..]) + out[i].len
  {
    var last := |out| - 1;
    var rest := out[..i] + out[i + 1..];
    if i == last {
      assert rest == out[..last];
    } else {
      assert rest[..last - 1] == out[..last][..i] + out[..last][i + 1..];
      assert rest[last - 1] == out[last];
      BytesWithout(out[..last], i);
    }
  }

  /** Nothing live after the request at `i` means nothing live that its add
      did not see. */
  lemma {:induction false} LiveWithin(out: seq<Request>, k: nat)
    requires k <= |out|
    requires forall j :: k <= j < |out| ==> !out[j].phase.Live?
    ensures LiveBytes(out) <= Bytes(out[..k])
  {
    if k == |out| {
      assert out[..k] == out;
      BytesSplit(out);
    } else {
      assert out[..|out| - 1][..k] == out[..k];
      LiveWithin(out[..|out| - 1], k);
    }
  }

  // The invariant.

  /** Each request's own total covers everything still counted that was added
      before it. */
  ghost predicate Covered(out: seq<Request>, i: nat)
    requires i < |out|
  {
    Bytes(out[..i + 1]) <= out[i].held
  }

  ghost predicate Inv(st: State) {
    && st.cells.buffers == Bytes(st.out)
    && (forall i :: 0 <= i < |st.out| ==> Covered(st.out, i))
    && (forall i :: 0 <= i < |st.out| && (st.out[i].phase.Live? || st.out[i].phase.Freed?) ==>
          !TooMuch(st.limit, st.out[i]))
    && (st.refused > 0 ==> st.cells.hit != None)
  }

  lemma TakeKeeps(st: State, len: nat)
    requires Inv(st)
    ensures Inv(Next(st, Take(len)))
  {
    var n := |st.out|;
    var out := Next(st, Take(len)).out;
    assert out[..n] == st.out && out[..n + 1] == out;
    forall i | 0 <= i < n + 1
      ensures Covered(out, i)
    {
      if i < n {
        assert out[..i + 1] == st.out[..i + 1];
        assert Covered(st.out, i);
      }
    }
  }

  lemma PhaseKeeps(st: State, a: Action, i: nat)
    requires Inv(st) && (a == Decide(i) || a == Free(i)) && Enabled(st, a)
    ensures Inv(Next(st, a))
  {
    var out := Next(st, a).out;
    SameLengths(out, st.out);
    forall j | 0 <= j < |out|
      ensures Covered(out, j)
    {
      assert Covered(st.out, j);
      SameLengths(out[..j + 1], st.out[..j + 1]);
    }
  }

  lemma CoveredBefore(out: seq<Request>, i: nat, j: nat)
    requires j < i < |out| && Covered(out, j)
    ensures Covered(out[..i] + out[i + 1..], j)
  {
    assert (out[..i] + out[i + 1..])[..j + 1] == out[..j + 1];
  }

  lemma CoveredAfter(out: seq<Request>, i: nat, j: nat)
    requires i <= j < |out| - 1 && Covered(out, j + 1)
    ensures Covered(out[..i] + out[i + 1..], j)
  {
    var front := out[..j + 2];
    BytesWithout(front, i);
    assert (out[..i] + out[i + 1..])[..j + 1] == front[..i] + front[i + 1..];
  }

  lemma GiveBackKeeps(st: State, i: nat)
    requires Inv(st) && Enabled(st, GiveBack(i))
    ensures Inv(Next(st, GiveBack(i)))
  {
    var out := Next(st, GiveBack(i)).out;
    assert out == st.out[..i] + st.out[i + 1..];
    BytesWithout(st.out, i);
    forall j | 0 <= j < |out|
      ensures Covered(out, j)
    {
      if j < i {
        CoveredBefore(st.out, i, j);
      } else {
        CoveredAfter(st.out, i, j);
      }
    }
  }

  lemma StepKeepsInv(st: State, a: Action)
    requires Inv(st) && Enabled(st, a)
    ensures Inv(Next(st, a))
  {
    match a {
      case Take(len) => TakeKeeps(st, len);
      case Decide(i) => PhaseKeeps(st, a, i);
      case Free(i) => PhaseKeeps(st, a, i);
      case GiveBack(i) => GiveBackKeeps(st, i);
      case _ =>
    }
  }

  lemma Reachable(st: State, run: seq<Action>)
    requires Init(st) && After(Step, st, run).Some?
    ensures Inv(After(Step, st, run).value) && After(Step, st, run).value.limit == st.limit
  {
    var limit := st.limit;
    forall s, a | (Inv(s) && s.limit == limit) && Step(s, a).Some?
      ensures Inv(Step(s, a).value) && Step(s, a).value.limit == limit
    {
      StepKeepsInv(s, a);
    }
    Always(Step, s => Inv(s) && s.limit == limit, st, run);
  }

  lemma {:induction false} LastLive(out: seq<Request>) returns (k: nat)
    ensures k <= |out|
    ensures forall j :: k <= j < |out| ==> !out[j].phase.Live?
    ensures k > 0 ==> out[k - 1].phase.Live?
  {
    if out == [] {
      k := 0;
    } else if out[|out| - 1].phase.Live? {
      k := |out|;
    } else {
      k := LastLive(out[..|out| - 1]);
    }
  }

  /** In every interleaving the count is the bytes the function holds plus the
      bytes on their way in or out, the bytes held stay under the burst, no
      allocation alone passes the limit, and once a refusal has returned a
      limit is recorded. */
  lemma CountIsHonest(st: State, run: seq<Action>, end: State)
    requires Init(st) && After(Step, st, run) == Some(end)
    ensures end.cells.buffers == LiveBytes(end.out) + PassingBytes(end.out)
    ensures LiveBytes(end.out) <= 2 * st.limit
    ensures forall r :: r in end.out && r.phase.Live? ==> r.len <= st.limit
    ensures end.refused > 0 ==> end.cells.hit != None
  {
    Reachable(st, run);
    BytesSplit(end.out);
    var k := LastLive(end.out);
    LiveWithin(end.out, k);
    if k > 0 {
      assert Covered(end.out, k - 1);
    }
  }

  /** What a request was refused or let through for. */
  ghost predicate IsWarranted(limit: nat, r: Request) {
    match r.phase
    case Took => true
    case Refusing => r.len > limit || r.held > 2 * limit
    case Live => r.len <= limit && r.held <= 2 * limit
    case Freed => r.len <= limit && r.held <= 2 * limit
  }

  ghost predicate AreWarranted(st: State) {
    forall i :: 0 <= i < |st.out| ==> IsWarranted(st.limit, st.out[i])
  }

  lemma WarrantedStep(st: State, a: Action)
    requires AreWarranted(st) && Enabled(st, a)
    ensures AreWarranted(Next(st, a))
  {
    var out := Next(st, a).out;
    forall i | 0 <= i < |out|
      ensures IsWarranted(st.limit, out[i])
    {
      if a.GiveBack? {
        assert out[i] == st.out[if i < a.i then i else i + 1];
      } else if i < |st.out| {
        assert IsWarranted(st.limit, st.out[i]);
      }
    }
  }

  /** In every interleaving a request is refused only for passing the limit by itself,
      or for a total of its own add past twice the limit, and let through only
      otherwise. */
  lemma RefusalsAreWarranted(st: State, run: seq<Action>, end: State, i: nat)
    requires Init(st) && After(Step, st, run) == Some(end) && i < |end.out|
    ensures end.out[i].phase.Refusing? ==> end.out[i].len > end.limit || end.out[i].held > 2 * end.limit
    ensures end.out[i].phase.Live? ==> end.out[i].len <= end.limit && end.out[i].held <= 2 * end.limit
  {
    forall s, a | AreWarranted(s) && Step(s, a).Some?
      ensures AreWarranted(Step(s, a).value)
    {
      WarrantedStep(s, a);
    }
    Always(Step, s => AreWarranted(s), st, run);
    assert IsWarranted(end.limit, end.out[i]);
  }

  // Where every request went.

  ghost function Count(kind: Action -> bool, run: seq<Action>): nat {
    if run == [] then 0 else (if kind(run[0]) then 1 else 0) + Count(kind, run[1..])
  }

  ghost function Among(kind: Request -> bool, out: seq<Request>): nat {
    if out == [] then 0 else Among(kind, out[..|out| - 1]) + if kind(out[|out| - 1]) then 1 else 0
  }

  lemma {:induction false} AmongTogether(kind: Request -> bool, a: seq<Request>, b: seq<Request>)
    ensures Among(kind, a + b) == Among(kind, a) + Among(kind, b)
  {
    if b == [] {
      assert a + b == a;
    } else {
      assert (a + b)[..|a + b| - 1] == a + b[..|b| - 1];
      AmongTogether(kind, a, b[..|b| - 1]);
    }
  }

  /** One request taken out of the middle, or put back as another. */
  lemma AmongAt(kind: Request -> bool, out: seq<Request>, i: nat, r: Request)
    requires i < |out|
    ensures Among(kind, out) == Among(kind, out[..i] + out[i + 1..]) + Among(kind, [out[i]])
    ensures Among(kind, out[i := r]) == Among(kind, out[..i] + out[i + 1..]) + Among(kind, [r])
  {
    var front, back := out[..i], out[i + 1..];
    AmongTogether(kind, front, back);
    assert out == front + ([out[i]] + back) && out[i := r] == front + ([r] + back);
    AmongTogether(kind, [out[i]], back);
    AmongTogether(kind, [r], back);
    AmongTogether(kind, front, [out[i]] + back);
    AmongTogether(kind, front, [r] + back);
  }

  /** How a step changes how many requests of a kind are out. */
  lemma AmongStep(kind: Request -> bool, st: State, a: Action)
    requires Enabled(st, a)
    ensures var out := Next(st, a).out;
            match a
            case Take(_) => out != [] && Among(kind, out) == Among(kind, st.out) + Among(kind, [out[|out| - 1]])
            case Decide(i) =>
              && |out| == |st.out|
              && Among(kind, out) == Among(kind, st.out) - Among(kind, [st.out[i]]) + Among(kind, [out[i]])
            case Free(i) =>
              && |out| == |st.out|
              && Among(kind, out) == Among(kind, st.out) - Among(kind, [st.out[i]]) + Among(kind, [out[i]])
            case GiveBack(i) => Among(kind, out) == Among(kind, st.out) - Among(kind, [st.out[i]])
            case _ => out == st.out
  {
    var out := Next(st, a).out;
    match a {
      case Take(len) => AmongTogether(kind, st.out, [out[|out| - 1]]);
      case Decide(i) => AmongAt(kind, st.out, i, out[i]);
      case Free(i) => AmongAt(kind, st.out, i, out[i]);
      case GiveBack(i) => AmongAt(kind, st.out, i, st.out[i]);
      case _ =>
    }
  }

  ghost predicate IsTake(a: Action) {
    a.Take?
  }

  ghost predicate IsDecide(a: Action) {
    a.Decide?
  }

  ghost predicate IsFree(a: Action) {
    a.Free?
  }

  ghost predicate IsUndecided(r: Request) {
    r.phase.Took?
  }

  ghost predicate IsFreed(r: Request) {
    r.phase.Freed?
  }

  /** Requests out, not counting those on their way out for good. */
  ghost function Kept(st: State): int {
    |st.out| + st.owed + st.refused - Among(IsFreed, st.out)
  }

  lemma StepKeepsCount(st: State, a: Action)
    requires Enabled(st, a)
    ensures Kept(Next(st, a)) == Kept(st) + Count(IsTake, [a]) - Count(IsFree, [a])
    ensures Among(IsUndecided, Next(st, a).out) == Among(IsUndecided, st.out) + Count(IsTake, [a]) - Count(IsDecide, [a])
  {
    AmongStep(IsFreed, st, a);
    AmongStep(IsUndecided, st, a);
  }

  lemma {:induction false} CountFrom(st: State, run: seq<Action>, end: State)
    requires After(Step, st, run) == Some(end)
    ensures Kept(end) == Kept(st) + Count(IsTake, run) - Count(IsFree, run)
    ensures Among(IsUndecided, end.out) == Among(IsUndecided, st.out) + Count(IsTake, run) - Count(IsDecide, run)
    decreases |run|
  {
    if run != [] {
      StepKeepsCount(st, run[0]);
      CountFrom(Next(st, run[0]), run[1..], end);
    }
  }

  /** In every interleaving each request is in one place: still out, freed, or
      refused with its record owed or made. And each is decided once. */
  lemma NoRequestIsLost(st: State, run: seq<Action>, end: State)
    requires Init(st) && After(Step, st, run) == Some(end)
    ensures Count(IsTake, run) == |end.out| - Among(IsFreed, end.out) + Count(IsFree, run) + end.owed + end.refused
    ensures Count(IsTake, run) == Count(IsDecide, run) + Among(IsUndecided, end.out)
  {
    CountFrom(st, run, end);
  }

  /** A count nothing is passing through is exactly what the function holds,
      so no run of refusals, failures and releases leaks a byte either way. */
  lemma QuietCountIsExact(st: State, run: seq<Action>, end: State)
    requires Init(st) && After(Step, st, run) == Some(end)
    requires forall r :: r in end.out ==> r.phase.Live?
    ensures end.cells.buffers == LiveBytes(end.out)
    ensures end.out == [] ==> end.cells.buffers == 0
  {
    CountIsHonest(st, run, end);
    AllLive(end.out);
  }

  lemma {:induction false} AllLive(out: seq<Request>)
    requires forall r :: r in out ==> r.phase.Live?
    ensures PassingBytes(out) == 0
  {
    if out != [] {
      AllLive(out[..|out| - 1]);
    }
  }

  /** Any request the steps above let begin can also end: giving back is never
      stuck on a count smaller than what it gives, and a refusal is recorded. */
  lemma GivingBackIsNeverStuck(st: State, run: seq<Action>, end: State)
    requires Init(st) && After(Step, st, run) == Some(end)
    ensures forall i :: 0 <= i < |end.out| ==>
              match end.out[i].phase
              case Took => Enabled(end, Decide(i))
              case Live => Enabled(end, Free(i))
              case _ => Enabled(end, GiveBack(i))
    ensures end.owed > 0 ==> Enabled(end, RecordRefusal)
  {
    Reachable(st, run);
    forall i | 0 <= i < |end.out|
      ensures end.out[i].len <= end.cells.buffers
    {
      BytesWithout(end.out, i);
    }
  }
}
