/** Who may write a shard's log: takeovers that seal the chain and swap the
    manifest, the lines of windows they go on to write, and the requests of all
    of them reaching the store in any order and at any time.

    A line is one process after its takeover, numbered by the manifest version
    it swapped in. Every action is one request to the store, or one step that
    makes none; a request that was issued can arrive long after others have
    moved on, or never. */
module Takeover {
  import opened Wrappers
  import opened Chain
  import Runs

  /** A window's put: on its way, refused because the position is taken, found
      to be taken by a window, judged to be litter, to be put again, landed, or
      lost. */
  datatype Put = Flying | Taken | Suspect | Doomed | Again | Landed | Lost

  /** The walk over what a fenced writer left past the seal: `answers` are the
      probes that came back, `doomed` that the next position was fetched as a
      window and is about to be deleted. */
  datatype Sweep = Sweep(at: nat, answers: map<nat, bool>, doomed: bool)

  /** Where a line sealed, what became of each of its windows, and what the
      digest of each says, which nothing keeps from being what another line's
      does. */
  datatype Line = Line(sealed: nat, puts: map<nat, Put>, tails: nat -> nat)

  /** Where a line is: its sweep until that is over, the position of its next
      window, and of the next one to resolve. */
  datatype Cursor = Cursor(sweep: Option<Sweep>, next: nat, ack: nat, failed: bool)

  datatype Taker =
    | Idle
    | Loaded(version: nat, floor: nat)
    | Found(version: nat, head: nat, prev: Digest)
    | Sealed(version: nat, at: nat)

  /** `head` and `version` are the manifest; an acknowledged window is its line
      and its position. */
  datatype State = State(
    store: Store, version: nat, head: nat,
    lines: map<nat, Line>, cursors: map<nat, Cursor>, takers: map<nat, Taker>, acked: set<(nat, nat)>)

  const START := State(map[], 0, 0, map[], map[], map[], {})

  datatype Action =
    | Load(taker: nat)
    | Find(taker: nat, at: nat)
    | PutSeal(taker: nat)
    | Swap(taker: nat, tails: nat -> nat)
    | Probe(line: nat, at: nat)
    | Fetch(line: nat)
    | Delete(line: nat)
    | EndSweep(line: nat)
    | Dispatch(line: nat)
    | Land(line: nat, at: nat)
    | Look(line: nat, at: nat)
    | Check(line: nat, at: nat)
    | Clear(line: nat, at: nat)
    | Reput(line: nat, at: nat)
    | Resolve(line: nat)

  function TakerOf(st: State, t: nat): Taker {
    if t in st.takers then st.takers[t] else Idle
  }

  /** A line's window at a position: the first links to the seal, every other to
      the line's own window before it. */
  function WindowOf(l: nat, line: Line, n: nat): Segment {
    Landing(l, line.tails(n), if n <= line.sealed + 1 then Nothing else Window(line.tails(n - 1)))
  }

  predicate PutIs(st: State, l: nat, n: nat, p: Put) {
    l in st.lines && n in st.lines[l].puts && st.lines[l].puts[n] == p
  }

  predicate IsSweeping(st: State, l: nat, doomed: bool) {
    l in st.cursors && st.cursors[l].sweep.Some? && st.cursors[l].sweep.value.doomed == doomed
  }

  // What each step needs, and what it does.

  predicate Enabled(st: State, a: Action) {
    match a
    case Load(t) => TakerOf(st, t) == Idle
    case Find(t, at) => TakerOf(st, t).Loaded? && TakerOf(st, t).floor <= at && (at == 0 || at in st.store)
    case PutSeal(t) => TakerOf(st, t).Found?
    case Swap(t, _) => TakerOf(st, t).Sealed?
    case Probe(l, at) => IsSweeping(st, l, false)
    case Fetch(l) => IsSweeping(st, l, false) && st.cursors[l].sweep.value.at + 1 in st.cursors[l].sweep.value.answers
    case Delete(l) => IsSweeping(st, l, true)
    case EndSweep(l) => IsSweeping(st, l, false)
    case Dispatch(l) => l in st.lines && l in st.cursors && st.cursors[l].sweep.None?
    case Land(l, at) => PutIs(st, l, at, Flying)
    case Look(l, at) => PutIs(st, l, at, Taken)
    case Check(l, at) => PutIs(st, l, at, Suspect)
    case Clear(l, at) => PutIs(st, l, at, Doomed)
    case Reput(l, at) => PutIs(st, l, at, Again)
    case Resolve(l) => l in st.cursors && (PutIs(st, l, st.cursors[l].ack, Landed) || PutIs(st, l, st.cursors[l].ack, Lost))
  }

  function Taking(st: State, t: nat, taker: Taker): State {
    st.(takers := st.takers[t := taker])
  }

  function Moving(st: State, l: nat, cursor: Cursor): State {
    st.(cursors := st.cursors[l := cursor])
  }

  function PutTo(lines: map<nat, Line>, l: nat, n: nat, p: Put): map<nat, Line>
    requires l in lines
  {
    lines[l := lines[l].(puts := lines[l].puts[n := p])]
  }

  function Putting(st: State, l: nat, n: nat, p: Put): State
    requires l in st.lines
  {
    st.(lines := PutTo(st.lines, l, n, p))
  }

  /** A put where nothing is takes the position; anywhere else it changes
      nothing. */
  function Arriving(st: State, l: nat, n: nat, refused: Put): State
    requires l in st.lines
  {
    if n in st.store then Putting(st, l, n, refused)
    else Putting(st, l, n, Landed).(store := st.store[n := WindowOf(l, st.lines[l], n)])
  }

  function Sealing(st: State, t: nat, taker: Taker): State
    requires taker.Found?
  {
    if taker.head + 1 in st.store then Taking(st, t, Idle)
    else Taking(st, t, Sealed(taker.version, taker.head + 1)).(store := st.store[taker.head + 1 := Seal(taker.prev)])
  }

  /** A new owner, which sweeps before it writes. */
  function Owned(st: State, at: nat, tails: nat -> nat): State {
    var l := st.version + 1;
    State(st.store, l, at,
          st.lines[l := Line(at, map[], tails)],
          st.cursors[l := Cursor(Some(Sweep(at, map[], false)), at + 1, at + 1, false)],
          st.takers, st.acked)
  }

  /** The swap is refused when the manifest moved since it was loaded. */
  function Swapping(st: State, t: nat, taker: Taker, tails: nat -> nat): State
    requires taker.Sealed?
  {
    if taker.version != st.version then Taking(st, t, Idle) else Owned(Taking(st, t, Idle), taker.at, tails)
  }

  /** The sweep goes past what is not there, stops at a seal, and dooms a
      window. */
  function Fetched(store: Store, cursor: Cursor): Cursor
    requires cursor.sweep.Some? && cursor.sweep.value.at + 1 in cursor.sweep.value.answers
  {
    var sweep := cursor.sweep.value;
    var n := sweep.at + 1;
    if !sweep.answers[n] || n !in store then cursor.(sweep := Some(sweep.(at := n)))
    else if store[n].Seal? then cursor.(sweep := None)
    else cursor.(sweep := Some(sweep.(doomed := true)))
  }

  function Deleted(st: State, l: nat, cursor: Cursor): State
    requires cursor.sweep.Some?
  {
    var sweep := cursor.sweep.value;
    State(st.store - {sweep.at + 1}, st.version, st.head, st.lines,
          st.cursors[l := cursor.(sweep := Some(sweep.(at := sweep.at + 1, doomed := false)))], st.takers, st.acked)
  }

  function Dispatched(st: State, l: nat, cursor: Cursor): State
    requires l in st.lines
  {
    State(st.store, st.version, st.head, PutTo(st.lines, l, cursor.next, Flying),
          st.cursors[l := cursor.(next := cursor.next + 1)], st.takers, st.acked)
  }

  function Cleared(st: State, l: nat, n: nat): State
    requires l in st.lines
  {
    State(st.store - {n}, st.version, st.head, PutTo(st.lines, l, n, Again), st.cursors, st.takers, st.acked)
  }

  /** Windows resolve in order, and none as durable past one that failed. */
  function Resolved(st: State, l: nat, cursor: Cursor, well: bool): State {
    State(st.store, st.version, st.head, st.lines,
          st.cursors[l := cursor.(ack := cursor.ack + 1, failed := !well)],
          st.takers, if well then st.acked + {(l, cursor.ack)} else st.acked)
  }

  function Next(st: State, a: Action): State
    requires Enabled(st, a)
  {
    match a
    case Load(t) => Taking(st, t, Loaded(st.version, st.head))
    case Find(t, at) => Taking(st, t, Found(TakerOf(st, t).version, at, DigestAt(st.store, at)))
    case PutSeal(t) => Sealing(st, t, TakerOf(st, t))
    case Swap(t, tails) => Swapping(st, t, TakerOf(st, t), tails)
    case Probe(l, at) =>
      var sweep := st.cursors[l].sweep.value;
      Moving(st, l, st.cursors[l].(sweep := Some(sweep.(answers := sweep.answers[at := at in st.store]))))
    case Fetch(l) => Moving(st, l, Fetched(st.store, st.cursors[l]))
    case Delete(l) => Deleted(st, l, st.cursors[l])
    case EndSweep(l) => Moving(st, l, st.cursors[l].(sweep := None))
    case Dispatch(l) => Dispatched(st, l, st.cursors[l])
    case Land(l, at) => Arriving(st, l, at, Taken)
    case Look(l, at) => Putting(st, l, at, if HoldsWindow(st.store, at) then Suspect else Lost)
    case Check(l, at) => Putting(st, l, at, if st.head == st.lines[l].sealed then Doomed else Lost)
    case Clear(l, at) => Cleared(st, l, at)
    case Reput(l, at) => Arriving(st, l, at, Lost)
    case Resolve(l) => Resolved(st, l, st.cursors[l], PutIs(st, l, st.cursors[l].ack, Landed) && !st.cursors[l].failed)
  }

  function Step(st: State, a: Action): Option<State> {
    if Enabled(st, a) then Some(Next(st, a)) else None
  }

  // The invariant, each part over what it is about.

  predicate HoldsWindow(store: Store, n: nat) {
    n in store && store[n].Landing?
  }

  predicate HoldsSeal(store: Store, n: nat) {
    n in store && store[n].Seal?
  }

  predicate HasLanded(line: Line, n: nat) {
    n in line.puts && line.puts[n].Landed?
  }

  predicate HasDoubts(line: Line, n: nat) {
    n in line.puts && (line.puts[n].Suspect? || line.puts[n].Doomed?)
  }

  predicate IsFence(store: Store, line: Line, j: nat) {
    j in store && store[j].Seal? && !(j in line.puts && line.puts[j].Landed?)
  }

  /** Past its own seal and up to here, some seal is in the line's way: a
      position where the line's window is not and cannot come to be. */
  ghost predicate Fenced(store: Store, line: Line, until: int) {
    exists j :: line.sealed < j <= until && IsFence(store, line, j)
  }

  /** A line's own seal is where it put it; and while the manifest names the
      line, what it took for another's window still is one. */
  ghost predicate LineIsRight(store: Store, version: nat, l: nat, line: Line) {
    && 1 <= l <= version && 1 <= line.sealed
    && HoldsSeal(store, line.sealed)
    && (forall n :: n in line.puts ==> n > line.sealed)
    && (l == version ==> forall n :: HasDoubts(line, n) ==> HoldsWindow(store, n))
  }

  /** Line numbers go with the positions they sealed, and the manifest names the
      last. */
  ghost predicate LinesAreRight(store: Store, version: nat, head: nat, lines: map<nat, Line>) {
    && (forall l :: l in lines ==> LineIsRight(store, version, l, lines[l]))
    && (forall k, l :: k in lines && l in lines && k < l ==> lines[k].sealed < lines[l].sealed)
    && (if version == 0 then head == 0 else version in lines && lines[version].sealed == head)
  }

  ghost predicate CursorIsRight(store: Store, version: nat, l: nat, line: Line, cursor: Cursor) {
    && line.sealed < cursor.ack <= cursor.next
    && (forall n :: n in line.puts ==> n < cursor.next)
    && (cursor.sweep.Some? ==>
          && line.puts == map[] && line.sealed <= cursor.sweep.value.at
          && (l == version && cursor.sweep.value.doomed ==> HoldsWindow(store, cursor.sweep.value.at + 1)))
    && (!cursor.failed ==> forall n :: line.sealed < n < cursor.ack ==> HasLanded(line, n))
  }

  ghost predicate CursorsAreRight(store: Store, version: nat, lines: map<nat, Line>, cursors: map<nat, Cursor>) {
    && lines.Keys == cursors.Keys
    && forall l :: l in lines ==> CursorIsRight(store, version, l, lines[l], cursors[l])
  }

  /** A window in the store is one its line put there. */
  ghost predicate StoreIsRight(store: Store, lines: map<nat, Line>) {
    && 0 !in store
    && forall n :: HoldsWindow(store, n) ==> IsOf(store, lines, n)
  }

  predicate IsOf(store: Store, lines: map<nat, Line>, n: nat)
    requires HoldsWindow(store, n)
  {
    var l := store[n].line;
    l in lines && HasLanded(lines[l], n) && store[n] == WindowOf(l, lines[l], n)
  }

  /** A window that landed is where it landed, or its line is fenced below. */
  ghost predicate StandsOrFenced(store: Store, l: nat, line: Line, n: nat) {
    (n in store && store[n] == WindowOf(l, line, n)) || Fenced(store, line, n - 1)
  }

  ghost predicate LandedIsRight(store: Store, lines: map<nat, Line>) {
    forall l: nat, n: nat :: l in lines && HasLanded(lines[l], n) ==> StandsOrFenced(store, l, lines[l], n)
  }

  /** A seal past a line's own fences it. */
  ghost predicate SealsAreRight(store: Store, lines: map<nat, Line>) {
    forall l: nat, k: nat :: l in lines && HoldsSeal(store, k) && k > lines[l].sealed ==> Fenced(store, lines[l], k)
  }

  ghost predicate AckedIsRight(lines: map<nat, Line>, acked: set<(nat, nat)>) {
    forall l, n :: (l, n) in acked ==>
                     && l in lines && lines[l].sealed < n
                     && forall k :: lines[l].sealed < k <= n ==> HasLanded(lines[l], k)
  }

  ghost predicate TakerIsRight(store: Store, version: nat, head: nat, taker: Taker) {
    match taker
    case Idle => true
    case Loaded(v, floor) => v <= version && (v == version ==> floor == head)
    case Found(v, at, _) => v <= version && (v == version ==> at >= head)
    case Sealed(v, at) => v <= version && (v == version ==> at > head && HoldsSeal(store, at))
  }

  ghost predicate TakersAreRight(store: Store, version: nat, head: nat, takers: map<nat, Taker>) {
    forall t :: t in takers ==> TakerIsRight(store, version, head, takers[t])
  }

  ghost predicate Inv(st: State) {
    && LinesAreRight(st.store, st.version, st.head, st.lines)
    && CursorsAreRight(st.store, st.version, st.lines, st.cursors)
    && StoreIsRight(st.store, st.lines)
    && LandedIsRight(st.store, st.lines)
    && SealsAreRight(st.store, st.lines)
    && AckedIsRight(st.lines, st.acked)
    && TakersAreRight(st.store, st.version, st.head, st.takers)
  }

  /** What the code leaves to chance: that the manifest still names the line
      when its delete arrives. */
  ghost predicate Careful(st: State, a: Action) {
    match a
    case Delete(l) => st.version == l
    case Clear(l, _) => st.version == l
    case _ => true
  }

  // Steps that change no segment and no put.

  lemma TakingKeeps(st: State, t: nat, taker: Taker)
    requires Inv(st) && TakerIsRight(st.store, st.version, st.head, taker)
    ensures Inv(Taking(st, t, taker))
  {
  }

  lemma MovingKeeps(st: State, l: nat, cursor: Cursor)
    requires Inv(st) && l in st.lines
    requires CursorIsRight(st.store, st.version, l, st.lines[l], cursor)
    ensures Inv(Moving(st, l, cursor))
  {
  }

  // Steps of a put that does not land.

  /** A fence stays one while the seal stays and the window does not land. */
  lemma FenceStays(store: Store, line: Line, store': Store, line': Line, until: int)
    requires Fenced(store, line, until) && line'.sealed == line.sealed
    requires forall j :: IsFence(store, line, j) ==> IsFence(store', line', j)
    ensures Fenced(store', line', until)
  {
    var j :| line.sealed < j <= until && IsFence(store, line, j);
  }

  lemma PutLines(store: Store, version: nat, head: nat, lines: map<nat, Line>, l: nat, n: nat, p: Put)
    requires LinesAreRight(store, version, head, lines) && l in lines && n > lines[l].sealed
    requires (p.Suspect? || p.Doomed?) && l == version ==> HoldsWindow(store, n)
    ensures LinesAreRight(store, version, head, PutTo(lines, l, n, p))
  {
    var lines' := PutTo(lines, l, n, p);
    assert LineIsRight(store, version, l, lines[l]);
    assert LineIsRight(store, version, l, lines'[l]);
    forall k | k in lines'
      ensures LineIsRight(store, version, k, lines'[k])
    {
      assert LineIsRight(store, version, k, lines[k]);
    }
  }

  lemma PutCursors(store: Store, version: nat, lines: map<nat, Line>, cursors: map<nat, Cursor>, l: nat, n: nat, p: Put)
    requires CursorsAreRight(store, version, lines, cursors) && l in lines
    requires cursors[l].sweep.None? && n < cursors[l].next
    requires HasLanded(lines[l], n) ==> p.Landed?
    ensures CursorsAreRight(store, version, PutTo(lines, l, n, p), cursors)
  {
    var lines' := PutTo(lines, l, n, p);
    assert CursorIsRight(store, version, l, lines[l], cursors[l]);
    assert forall m :: HasLanded(lines[l], m) ==> HasLanded(lines'[l], m);
    assert CursorIsRight(store, version, l, lines'[l], cursors[l]);
  }

  lemma PutStore(store: Store, lines: map<nat, Line>, l: nat, n: nat, p: Put)
    requires StoreIsRight(store, lines) && l in lines
    requires HasLanded(lines[l], n) ==> p.Landed?
    ensures StoreIsRight(store, PutTo(lines, l, n, p))
  {
    var lines' := PutTo(lines, l, n, p);
    forall m: nat | HoldsWindow(store, m)
      ensures IsOf(store, lines', m)
    {
      assert IsOf(store, lines, m);
    }
  }

  lemma PutAcked(lines: map<nat, Line>, acked: set<(nat, nat)>, l: nat, n: nat, p: Put)
    requires AckedIsRight(lines, acked) && l in lines
    requires HasLanded(lines[l], n) ==> p.Landed?
    ensures AckedIsRight(PutTo(lines, l, n, p), acked)
  {
    var lines' := PutTo(lines, l, n, p);
    assert forall m :: HasLanded(lines[l], m) ==> HasLanded(lines'[l], m);
  }

  lemma PutLanded(store: Store, lines: map<nat, Line>, l: nat, n: nat, p: Put)
    requires l in lines && !HasLanded(lines[l], n) && !p.Landed?
    requires LandedIsRight(store, lines)
    ensures LandedIsRight(store, PutTo(lines, l, n, p))
  {
    var lines' := PutTo(lines, l, n, p);
    forall k: nat, m: nat | k in lines' && HasLanded(lines'[k], m)
      ensures StandsOrFenced(store, k, lines'[k], m)
    {
      assert HasLanded(lines[k], m);
      if Fenced(store, lines[k], m - 1) {
        FenceStays(store, lines[k], store, lines'[k], m - 1);
      }
    }
  }

  lemma PutSeals(store: Store, lines: map<nat, Line>, l: nat, n: nat, p: Put)
    requires l in lines && !HasLanded(lines[l], n) && !p.Landed?
    requires SealsAreRight(store, lines)
    ensures SealsAreRight(store, PutTo(lines, l, n, p))
  {
    var lines' := PutTo(lines, l, n, p);
    forall k: nat, m: nat | k in lines' && HoldsSeal(store, m) && m > lines'[k].sealed
      ensures Fenced(store, lines'[k], m)
    {
      FenceStays(store, lines[k], store, lines'[k], m);
    }
  }

  lemma PuttingKeeps(st: State, l: nat, n: nat, p: Put)
    requires Inv(st) && l in st.lines && st.cursors[l].sweep.None?
    requires !HasLanded(st.lines[l], n) && !p.Landed? && st.lines[l].sealed < n < st.cursors[l].next
    requires (p.Suspect? || p.Doomed?) && l == st.version ==> HoldsWindow(st.store, n)
    ensures Inv(Putting(st, l, n, p))
  {
    PutLines(st.store, st.version, st.head, st.lines, l, n, p);
    PutCursors(st.store, st.version, st.lines, st.cursors, l, n, p);
    PutStore(st.store, st.lines, l, n, p);
    PutLanded(st.store, st.lines, l, n, p);
    PutSeals(st.store, st.lines, l, n, p);
    PutAcked(st.lines, st.acked, l, n, p);
  }

  // A segment is added where there was none.

  lemma AddLines(store: Store, version: nat, head: nat, lines: map<nat, Line>, n: nat, segment: Segment)
    requires LinesAreRight(store, version, head, lines) && 0 < n && n !in store
    ensures LinesAreRight(store[n := segment], version, head, lines)
  {
    var store' := store[n := segment];
    forall k | k in lines
      ensures LineIsRight(store', version, k, lines[k])
    {
      assert LineIsRight(store, version, k, lines[k]);
    }
  }

  lemma AddCursors(store: Store, version: nat, lines: map<nat, Line>, cursors: map<nat, Cursor>, n: nat, segment: Segment)
    requires CursorsAreRight(store, version, lines, cursors) && n !in store
    ensures CursorsAreRight(store[n := segment], version, lines, cursors)
  {
    forall k | k in lines
      ensures CursorIsRight(store[n := segment], version, k, lines[k], cursors[k])
    {
      assert CursorIsRight(store, version, k, lines[k], cursors[k]);
    }
  }

  lemma AddTakers(store: Store, version: nat, head: nat, takers: map<nat, Taker>, n: nat, segment: Segment)
    requires TakersAreRight(store, version, head, takers) && 0 < n && n !in store
    ensures TakersAreRight(store[n := segment], version, head, takers)
  {
    forall t | t in takers
      ensures TakerIsRight(store[n := segment], version, head, takers[t])
    {
      assert TakerIsRight(store, version, head, takers[t]);
    }
  }

  lemma LandStore(store: Store, lines: map<nat, Line>, l: nat, n: nat)
    requires StoreIsRight(store, lines) && l in lines && 0 < n && n !in store
    ensures StoreIsRight(store[n := WindowOf(l, lines[l], n)], PutTo(lines, l, n, Landed))
  {
    var store' := store[n := WindowOf(l, lines[l], n)];
    var lines' := PutTo(lines, l, n, Landed);
    forall m: nat | HoldsWindow(store', m)
      ensures IsOf(store', lines', m)
    {
      if m != n {
        assert IsOf(store, lines, m);
      }
    }
  }

  lemma LandLanded(store: Store, lines: map<nat, Line>, l: nat, n: nat)
    requires LandedIsRight(store, lines) && l in lines && n !in store
    ensures LandedIsRight(store[n := WindowOf(l, lines[l], n)], PutTo(lines, l, n, Landed))
  {
    var store' := store[n := WindowOf(l, lines[l], n)];
    var lines' := PutTo(lines, l, n, Landed);
    forall k: nat, m: nat | k in lines' && HasLanded(lines'[k], m)
      ensures StandsOrFenced(store', k, lines'[k], m)
    {
      if k != l || m != n {
        assert HasLanded(lines[k], m);
        if Fenced(store, lines[k], m - 1) {
          FenceStays(store, lines[k], store', lines'[k], m - 1);
        }
      }
    }
  }

  lemma LandSeals(store: Store, lines: map<nat, Line>, l: nat, n: nat)
    requires SealsAreRight(store, lines) && l in lines && n !in store
    ensures SealsAreRight(store[n := WindowOf(l, lines[l], n)], PutTo(lines, l, n, Landed))
  {
    var store' := store[n := WindowOf(l, lines[l], n)];
    var lines' := PutTo(lines, l, n, Landed);
    forall k: nat, m: nat | k in lines' && HoldsSeal(store', m) && m > lines'[k].sealed
      ensures Fenced(store', lines'[k], m)
    {
      assert HoldsSeal(store, m);
      FenceStays(store, lines[k], store', lines'[k], m);
    }
  }

  lemma LandingKeeps(st: State, l: nat, n: nat)
    requires Inv(st) && l in st.lines && n !in st.store && st.cursors[l].sweep.None?
    requires st.lines[l].sealed < n < st.cursors[l].next
    ensures Inv(Putting(st, l, n, Landed).(store := st.store[n := WindowOf(l, st.lines[l], n)]))
  {
    var window := WindowOf(l, st.lines[l], n);
    var store' := st.store[n := window];
    AddLines(st.store, st.version, st.head, st.lines, n, window);
    PutLines(store', st.version, st.head, st.lines, l, n, Landed);
    AddCursors(st.store, st.version, st.lines, st.cursors, n, window);
    PutCursors(store', st.version, st.lines, st.cursors, l, n, Landed);
    AddTakers(st.store, st.version, st.head, st.takers, n, window);
    LandStore(st.store, st.lines, l, n);
    LandLanded(st.store, st.lines, l, n);
    LandSeals(st.store, st.lines, l, n);
    PutAcked(st.lines, st.acked, l, n, Landed);
  }

  // A seal is added.

  lemma SealStore(store: Store, lines: map<nat, Line>, n: nat, prev: Digest)
    requires StoreIsRight(store, lines) && 0 < n && n !in store
    ensures StoreIsRight(store[n := Seal(prev)], lines)
  {
    var store' := store[n := Seal(prev)];
    forall m: nat | HoldsWindow(store', m)
      ensures IsOf(store', lines, m)
    {
      assert IsOf(store, lines, m);
    }
  }

  lemma SealLanded(store: Store, lines: map<nat, Line>, n: nat, prev: Digest)
    requires LandedIsRight(store, lines) && n !in store
    ensures LandedIsRight(store[n := Seal(prev)], lines)
  {
    var store' := store[n := Seal(prev)];
    forall k: nat, m: nat | k in lines && HasLanded(lines[k], m)
      ensures StandsOrFenced(store', k, lines[k], m)
    {
      if Fenced(store, lines[k], m - 1) {
        FenceStays(store, lines[k], store', lines[k], m - 1);
      }
    }
  }

  /** The seal is a fence, or there was one below it already. */
  lemma SealSeals(store: Store, lines: map<nat, Line>, n: nat, prev: Digest)
    requires SealsAreRight(store, lines) && LandedIsRight(store, lines) && n !in store
    ensures SealsAreRight(store[n := Seal(prev)], lines)
  {
    var store' := store[n := Seal(prev)];
    forall k: nat, m: nat | k in lines && HoldsSeal(store', m) && m > lines[k].sealed
      ensures Fenced(store', lines[k], m)
    {
      if m != n {
        assert HoldsSeal(store, m);
        FenceStays(store, lines[k], store', lines[k], m);
      } else if HasLanded(lines[k], n) {
        assert Fenced(store, lines[k], n - 1);
        FenceStays(store, lines[k], store', lines[k], n - 1);
        assert Fenced(store', lines[k], n);
      } else {
        assert IsFence(store', lines[k], n);
      }
    }
  }

  lemma AddingASealKeeps(st: State, n: nat, prev: Digest, next: State)
    requires Inv(st) && 0 < n && n !in st.store && next == st.(store := st.store[n := Seal(prev)])
    ensures Inv(next)
  {
    AddLines(st.store, st.version, st.head, st.lines, n, Seal(prev));
    AddCursors(st.store, st.version, st.lines, st.cursors, n, Seal(prev));
    AddTakers(st.store, st.version, st.head, st.takers, n, Seal(prev));
    SealStore(st.store, st.lines, n, prev);
    SealLanded(st.store, st.lines, n, prev);
    SealSeals(st.store, st.lines, n, prev);
  }

  lemma SealingKeeps(st: State, t: nat, taker: Taker)
    requires Inv(st) && taker.Found? && TakerIsRight(st.store, st.version, st.head, taker)
    ensures Inv(Sealing(st, t, taker))
  {
    var n := taker.head + 1;
    if n in st.store {
      TakingKeeps(st, t, Idle);
    } else {
      var sealed := st.(store := st.store[n := Seal(taker.prev)]);
      AddingASealKeeps(st, n, taker.prev, sealed);
      TakingKeeps(sealed, t, Sealed(taker.version, n));
    }
  }

  // The manifest is swapped.

  lemma SwapLines(store: Store, version: nat, head: nat, lines: map<nat, Line>, at: nat, tails: nat -> nat)
    requires LinesAreRight(store, version, head, lines)
    requires at > head && HoldsSeal(store, at)
    ensures version + 1 !in lines
    ensures LinesAreRight(store, version + 1, at, lines[version + 1 := Line(at, map[], tails)])
  {
    var lines' := lines[version + 1 := Line(at, map[], tails)];
    assert version + 1 in lines ==> LineIsRight(store, version, version + 1, lines[version + 1]);
    forall k | k in lines
      ensures LineIsRight(store, version + 1, k, lines'[k]) && lines[k].sealed <= head
    {
      assert LineIsRight(store, version, k, lines[k]);
    }
  }

  lemma SwapCursors(store: Store, version: nat, lines: map<nat, Line>, cursors: map<nat, Cursor>, at: nat, tails: nat -> nat)
    requires CursorsAreRight(store, version, lines, cursors) && version + 1 !in lines
    ensures CursorsAreRight(store, version + 1, lines[version + 1 := Line(at, map[], tails)],
                            cursors[version + 1 := Cursor(Some(Sweep(at, map[], false)), at + 1, at + 1, false)])
  {
    forall k | k in lines && k != version
      ensures CursorIsRight(store, version + 1, k, lines[k], cursors[k])
    {
      assert CursorIsRight(store, version, k, lines[k], cursors[k]);
    }
    if version in lines {
      assert CursorIsRight(store, version, version, lines[version], cursors[version]);
    }
  }

  lemma SwapStore(store: Store, lines: map<nat, Line>, l: nat, at: nat, tails: nat -> nat)
    requires StoreIsRight(store, lines) && l !in lines
    ensures StoreIsRight(store, lines[l := Line(at, map[], tails)])
  {
    forall m: nat | HoldsWindow(store, m)
      ensures IsOf(store, lines[l := Line(at, map[], tails)], m)
    {
      assert IsOf(store, lines, m);
    }
  }

  lemma SwapFences(store: Store, lines: map<nat, Line>, l: nat, at: nat, tails: nat -> nat)
    requires LandedIsRight(store, lines) && SealsAreRight(store, lines) && l !in lines
    ensures LandedIsRight(store, lines[l := Line(at, map[], tails)])
    ensures SealsAreRight(store, lines[l := Line(at, map[], tails)])
  {
    var lines' := lines[l := Line(at, map[], tails)];
    forall k: nat, m: nat | k in lines' && HoldsSeal(store, m) && m > lines'[k].sealed
      ensures Fenced(store, lines'[k], m)
    {
      if k == l {
        assert IsFence(store, lines'[k], m);
      }
    }
  }

  lemma SwapTakers(store: Store, version: nat, head: nat, takers: map<nat, Taker>, at: nat)
    requires TakersAreRight(store, version, head, takers)
    ensures TakersAreRight(store, version + 1, at, takers)
  {
    forall t | t in takers
      ensures TakerIsRight(store, version + 1, at, takers[t])
    {
      assert TakerIsRight(store, version, head, takers[t]);
    }
  }

  lemma SwapAcked(lines: map<nat, Line>, acked: set<(nat, nat)>, l: nat, at: nat, tails: nat -> nat)
    requires AckedIsRight(lines, acked) && l !in lines
    ensures AckedIsRight(lines[l := Line(at, map[], tails)], acked)
  {
  }

  lemma OwnedLines(st: State, at: nat, tails: nat -> nat)
    requires LinesAreRight(st.store, st.version, st.head, st.lines)
    requires at > st.head && HoldsSeal(st.store, at)
    ensures st.version + 1 !in st.lines
    ensures var next := Owned(st, at, tails); LinesAreRight(next.store, next.version, next.head, next.lines)
  {
    SwapLines(st.store, st.version, st.head, st.lines, at, tails);
  }

  lemma OwnedCursors(st: State, at: nat, tails: nat -> nat)
    requires CursorsAreRight(st.store, st.version, st.lines, st.cursors) && st.version + 1 !in st.lines
    ensures var next := Owned(st, at, tails); CursorsAreRight(next.store, next.version, next.lines, next.cursors)
  {
    SwapCursors(st.store, st.version, st.lines, st.cursors, at, tails);
  }

  lemma OwnedFences(st: State, at: nat, tails: nat -> nat)
    requires LandedIsRight(st.store, st.lines) && SealsAreRight(st.store, st.lines) && st.version + 1 !in st.lines
    ensures var next := Owned(st, at, tails); LandedIsRight(next.store, next.lines) && SealsAreRight(next.store, next.lines)
  {
    SwapFences(st.store, st.lines, st.version + 1, at, tails);
  }

  lemma OwnedRest(st: State, at: nat, tails: nat -> nat)
    requires StoreIsRight(st.store, st.lines) && AckedIsRight(st.lines, st.acked) && st.version + 1 !in st.lines
    requires TakersAreRight(st.store, st.version, st.head, st.takers)
    ensures var next := Owned(st, at, tails);
            && StoreIsRight(next.store, next.lines) && AckedIsRight(next.lines, next.acked)
            && TakersAreRight(next.store, next.version, next.head, next.takers)
  {
    SwapStore(st.store, st.lines, st.version + 1, at, tails);
    SwapAcked(st.lines, st.acked, st.version + 1, at, tails);
    SwapTakers(st.store, st.version, st.head, st.takers, at);
  }

  lemma OwnedKeeps(st: State, at: nat, tails: nat -> nat)
    requires Inv(st) && at > st.head && HoldsSeal(st.store, at)
    ensures Inv(Owned(st, at, tails))
  {
    OwnedLines(st, at, tails);
    OwnedCursors(st, at, tails);
    OwnedFences(st, at, tails);
    OwnedRest(st, at, tails);
  }

  // The owner takes another line's window away.

  /** A window that may go: past the seal the manifest names, and of another
      line. */
  ghost predicate IsLitter(store: Store, version: nat, head: nat, n: nat) {
    version > 0 && n > head && HoldsWindow(store, n) && store[n].line != version
  }

  lemma RemoveLines(store: Store, version: nat, head: nat, lines: map<nat, Line>, n: nat)
    requires LinesAreRight(store, version, head, lines) && IsLitter(store, version, head, n)
    requires !HasDoubts(lines[version], n)
    ensures LinesAreRight(store - {n}, version, head, lines)
  {
    var store' := store - {n};
    forall k | k in lines
      ensures LineIsRight(store', version, k, lines[k])
    {
      assert LineIsRight(store, version, k, lines[k]);
      assert lines[k].sealed <= head;
    }
  }

  lemma RemoveCursors(store: Store, version: nat, lines: map<nat, Line>, cursors: map<nat, Cursor>, n: nat)
    requires CursorsAreRight(store, version, lines, cursors) && version in cursors
    requires cursors[version].sweep.Some? ==> !cursors[version].sweep.value.doomed
    ensures CursorsAreRight(store - {n}, version, lines, cursors)
  {
    forall k | k in lines
      ensures CursorIsRight(store - {n}, version, k, lines[k], cursors[k])
    {
      assert CursorIsRight(store, version, k, lines[k], cursors[k]);
    }
  }

  lemma RemoveStore(store: Store, lines: map<nat, Line>, n: nat)
    requires StoreIsRight(store, lines)
    ensures StoreIsRight(store - {n}, lines)
  {
    forall m: nat | HoldsWindow(store - {n}, m)
      ensures IsOf(store - {n}, lines, m)
    {
      assert IsOf(store, lines, m);
    }
  }

  lemma LitterIsFenced(store: Store, version: nat, head: nat, lines: map<nat, Line>, n: nat)
    requires LinesAreRight(store, version, head, lines) && IsLitter(store, version, head, n)
    requires store[n].line in lines && SealsAreRight(store, lines)
    ensures Fenced(store - {n}, lines[store[n].line], n - 1)
  {
    var k := store[n].line;
    assert LineIsRight(store, version, version, lines[version]) && LineIsRight(store, version, k, lines[k]);
    assert HoldsSeal(store, head) && head > lines[k].sealed;
    FenceStays(store, lines[k], store - {n}, lines[k], head);
  }

  lemma RemoveLandedAt(store: Store, version: nat, head: nat, lines: map<nat, Line>, n: nat, k: nat, m: nat)
    requires LinesAreRight(store, version, head, lines) && IsLitter(store, version, head, n)
    requires SealsAreRight(store, lines) && k in lines && HasLanded(lines[k], m)
    requires StandsOrFenced(store, k, lines[k], m)
    ensures StandsOrFenced(store - {n}, k, lines[k], m)
  {
    if m in store && store[m] == WindowOf(k, lines[k], m) {
      if m == n {
        LitterIsFenced(store, version, head, lines, n);
      }
    } else {
      FenceStays(store, lines[k], store - {n}, lines[k], m - 1);
    }
  }

  lemma RemoveLanded(store: Store, version: nat, head: nat, lines: map<nat, Line>, n: nat)
    requires LinesAreRight(store, version, head, lines) && IsLitter(store, version, head, n)
    requires LandedIsRight(store, lines) && SealsAreRight(store, lines)
    ensures LandedIsRight(store - {n}, lines)
  {
    var store' := store - {n};
    forall k: nat, m: nat | k in lines && HasLanded(lines[k], m)
      ensures StandsOrFenced(store', k, lines[k], m)
    {
      RemoveLandedAt(store, version, head, lines, n, k, m);
    }
  }

  lemma RemoveSeals(store: Store, lines: map<nat, Line>, n: nat)
    requires SealsAreRight(store, lines) && HoldsWindow(store, n)
    ensures SealsAreRight(store - {n}, lines)
  {
    var store' := store - {n};
    forall k: nat, m: nat | k in lines && HoldsSeal(store', m) && m > lines[k].sealed
      ensures Fenced(store', lines[k], m)
    {
      assert HoldsSeal(store, m);
      FenceStays(store, lines[k], store', lines[k], m);
    }
  }

  lemma RemoveTakers(store: Store, version: nat, head: nat, takers: map<nat, Taker>, n: nat)
    requires TakersAreRight(store, version, head, takers) && IsLitter(store, version, head, n)
    ensures TakersAreRight(store - {n}, version, head, takers)
  {
    forall t | t in takers
      ensures TakerIsRight(store - {n}, version, head, takers[t])
    {
      assert TakerIsRight(store, version, head, takers[t]);
    }
  }

  // Every step.

  lemma SwappingKeeps(st: State, t: nat, taker: Taker, tails: nat -> nat)
    requires Inv(st) && taker.Sealed? && TakerIsRight(st.store, st.version, st.head, taker)
    ensures Inv(Swapping(st, t, taker, tails))
  {
    TakingKeeps(st, t, Idle);
    if taker.version == st.version {
      OwnedKeeps(Taking(st, t, Idle), taker.at, tails);
    }
  }

  lemma TakerKnown(st: State, t: nat)
    requires Inv(st)
    ensures TakerIsRight(st.store, st.version, st.head, TakerOf(st, t))
  {
  }

  lemma TakerSteps(st: State, a: Action)
    requires Inv(st) && Enabled(st, a) && (a.Load? || a.Find? || a.PutSeal? || a.Swap?)
    ensures Inv(Next(st, a))
  {
    TakerKnown(st, a.taker);
    match a
    case Load(t) => TakingKeeps(st, t, Loaded(st.version, st.head));
    case Find(t, at) => TakingKeeps(st, t, Found(TakerOf(st, t).version, at, DigestAt(st.store, at)));
    case PutSeal(t) => SealingKeeps(st, t, TakerOf(st, t));
    case Swap(t, tails) => SwappingKeeps(st, t, TakerOf(st, t), tails);
  }

  lemma LineKnown(st: State, l: nat)
    requires LinesAreRight(st.store, st.version, st.head, st.lines)
    requires CursorsAreRight(st.store, st.version, st.lines, st.cursors)
    requires l in st.lines || l in st.cursors
    ensures l in st.lines && l in st.cursors
    ensures LineIsRight(st.store, st.version, l, st.lines[l])
    ensures CursorIsRight(st.store, st.version, l, st.lines[l], st.cursors[l])
    ensures l == st.version ==> st.lines[l].sealed == st.head
  {
  }

  lemma OthersWindow(store: Store, version: nat, head: nat, lines: map<nat, Line>, n: nat)
    requires LinesAreRight(store, version, head, lines) && StoreIsRight(store, lines)
    requires version > 0 && HoldsWindow(store, n) && n > head && !HasLanded(lines[version], n)
    ensures IsLitter(store, version, head, n)
  {
    assert IsOf(store, lines, n);
  }

  lemma CursorsMove(store: Store, version: nat, lines: map<nat, Line>, cursors: map<nat, Cursor>, l: nat, cursor: Cursor)
    requires CursorsAreRight(store, version, lines, cursors) && l in lines
    requires CursorIsRight(store, version, l, lines[l], cursor)
    ensures CursorsAreRight(store, version, lines, cursors[l := cursor])
  {
  }

  lemma DeletedCursors(st: State, l: nat)
    requires CursorsAreRight(st.store, st.version, st.lines, st.cursors) && IsSweeping(st, l, true) && st.version == l
    ensures var next := Deleted(st, l, st.cursors[l]);
            CursorsAreRight(next.store, next.version, next.lines, next.cursors)
  {
    var cursor := st.cursors[l];
    var sweep := cursor.sweep.value;
    var moved := cursor.(sweep := Some(sweep.(at := sweep.at + 1, doomed := false)));
    assert CursorIsRight(st.store, st.version, l, st.lines[l], cursor);
    CursorsMove(st.store, st.version, st.lines, st.cursors, l, moved);
    RemoveCursors(st.store, st.version, st.lines, st.cursors[l := moved], sweep.at + 1);
  }

  lemma DoomedIsLitter(st: State, l: nat, n: nat)
    requires LinesAreRight(st.store, st.version, st.head, st.lines) && StoreIsRight(st.store, st.lines)
    requires CursorsAreRight(st.store, st.version, st.lines, st.cursors)
    requires IsSweeping(st, l, true) && st.version == l && n == st.cursors[l].sweep.value.at + 1
    ensures IsLitter(st.store, st.version, st.head, n) && !HasDoubts(st.lines[l], n)
  {
    LineKnown(st, l);
    OthersWindow(st.store, st.version, st.head, st.lines, n);
  }

  /** What is left when a window goes that may. */
  ghost predicate Without(st: State, store: Store) {
    && LinesAreRight(store, st.version, st.head, st.lines)
    && StoreIsRight(store, st.lines)
    && LandedIsRight(store, st.lines) && SealsAreRight(store, st.lines)
    && TakersAreRight(store, st.version, st.head, st.takers)
  }

  lemma LitterGoes(st: State, n: nat, store: Store)
    requires Inv(st) && IsLitter(st.store, st.version, st.head, n) && !HasDoubts(st.lines[st.version], n)
    requires store == st.store - {n}
    ensures Without(st, store)
  {
    RemoveLines(st.store, st.version, st.head, st.lines, n);
    RemoveStore(st.store, st.lines, n);
    RemoveLanded(st.store, st.version, st.head, st.lines, n);
    RemoveSeals(st.store, st.lines, n);
    RemoveTakers(st.store, st.version, st.head, st.takers, n);
  }

  lemma DeletedIs(st: State, next: State)
    requires Without(st, next.store) && AckedIsRight(st.lines, st.acked)
    requires next == State(next.store, st.version, st.head, st.lines, next.cursors, st.takers, st.acked)
    requires CursorsAreRight(next.store, next.version, next.lines, next.cursors)
    ensures Inv(next)
  {
  }

  lemma DeleteStep(st: State, l: nat, n: nat, next: State)
    requires Inv(st) && IsSweeping(st, l, true) && st.version == l
    requires n == st.cursors[l].sweep.value.at + 1 && next == Deleted(st, l, st.cursors[l])
    ensures Inv(next)
  {
    assert IsLitter(st.store, st.version, st.head, n) && !HasDoubts(st.lines[l], n) by {
      DoomedIsLitter(st, l, n);
    }
    assert Without(st, next.store) by {
      LitterGoes(st, n, next.store);
    }
    assert CursorsAreRight(next.store, next.version, next.lines, next.cursors) by {
      DeletedCursors(st, l);
    }
    DeletedIs(st, next);
  }

  lemma FetchedIsRight(store: Store, version: nat, l: nat, line: Line, cursor: Cursor)
    requires CursorIsRight(store, version, l, line, cursor)
    requires cursor.sweep.Some? && cursor.sweep.value.at + 1 in cursor.sweep.value.answers && !cursor.sweep.value.doomed
    ensures CursorIsRight(store, version, l, line, Fetched(store, cursor))
  {
  }

  lemma ProbedIsRight(store: Store, version: nat, l: nat, line: Line, cursor: Cursor, answers: map<nat, bool>)
    requires CursorIsRight(store, version, l, line, cursor) && cursor.sweep.Some?
    ensures CursorIsRight(store, version, l, line, cursor.(sweep := Some(cursor.sweep.value.(answers := answers))))
  {
  }

  lemma SweptIsRight(store: Store, version: nat, l: nat, line: Line, cursor: Cursor)
    requires CursorIsRight(store, version, l, line, cursor)
    ensures CursorIsRight(store, version, l, line, cursor.(sweep := None))
  {
  }

  lemma ProbeStep(st: State, l: nat, at: nat)
    requires Inv(st) && Enabled(st, Probe(l, at))
    ensures Inv(Next(st, Probe(l, at)))
  {
    LineKnown(st, l);
    var sweep := st.cursors[l].sweep.value;
    ProbedIsRight(st.store, st.version, l, st.lines[l], st.cursors[l], sweep.answers[at := at in st.store]);
    MovingKeeps(st, l, st.cursors[l].(sweep := Some(sweep.(answers := sweep.answers[at := at in st.store]))));
  }

  lemma FetchStep(st: State, l: nat)
    requires Inv(st) && Enabled(st, Fetch(l))
    ensures Inv(Next(st, Fetch(l)))
  {
    LineKnown(st, l);
    FetchedIsRight(st.store, st.version, l, st.lines[l], st.cursors[l]);
    MovingKeeps(st, l, Fetched(st.store, st.cursors[l]));
  }

  lemma EndSweepStep(st: State, l: nat)
    requires Inv(st) && Enabled(st, EndSweep(l))
    ensures Inv(Next(st, EndSweep(l)))
  {
    LineKnown(st, l);
    SweptIsRight(st.store, st.version, l, st.lines[l], st.cursors[l]);
    MovingKeeps(st, l, st.cursors[l].(sweep := None));
  }

  lemma ResolvedCursors(st: State, l: nat, well: bool)
    requires CursorsAreRight(st.store, st.version, st.lines, st.cursors) && l in st.lines
    requires HasLanded(st.lines[l], st.cursors[l].ack) || PutIs(st, l, st.cursors[l].ack, Lost)
    requires well ==> HasLanded(st.lines[l], st.cursors[l].ack) && !st.cursors[l].failed
    ensures var next := Resolved(st, l, st.cursors[l], well);
            CursorsAreRight(next.store, next.version, next.lines, next.cursors)
  {
    assert CursorIsRight(st.store, st.version, l, st.lines[l], st.cursors[l]);
    CursorsMove(st.store, st.version, st.lines, st.cursors, l, st.cursors[l].(ack := st.cursors[l].ack + 1, failed := !well));
  }

  lemma ResolvedAcked(st: State, l: nat, well: bool)
    requires CursorsAreRight(st.store, st.version, st.lines, st.cursors) && l in st.lines
    requires AckedIsRight(st.lines, st.acked)
    requires well ==> HasLanded(st.lines[l], st.cursors[l].ack) && !st.cursors[l].failed
    ensures var next := Resolved(st, l, st.cursors[l], well); AckedIsRight(next.lines, next.acked)
  {
    assert CursorIsRight(st.store, st.version, l, st.lines[l], st.cursors[l]);
  }

  lemma ResolveStep(st: State, l: nat)
    requires Inv(st) && Enabled(st, Resolve(l))
    ensures Inv(Next(st, Resolve(l)))
  {
    LineKnown(st, l);
    var well := PutIs(st, l, st.cursors[l].ack, Landed) && !st.cursors[l].failed;
    ResolvedCursors(st, l, well);
    ResolvedAcked(st, l, well);
  }

  lemma DispatchedLines(st: State, l: nat)
    requires LinesAreRight(st.store, st.version, st.head, st.lines) && l in st.lines && l in st.cursors
    requires st.cursors[l].next > st.lines[l].sealed
    ensures var next := Dispatched(st, l, st.cursors[l]);
            LinesAreRight(next.store, next.version, next.head, next.lines)
  {
    PutLines(st.store, st.version, st.head, st.lines, l, st.cursors[l].next, Flying);
  }

  lemma NextIsRight(store: Store, version: nat, l: nat, line: Line, cursor: Cursor)
    requires CursorIsRight(store, version, l, line, cursor) && cursor.sweep.None?
    ensures CursorIsRight(store, version, l, line, cursor.(next := cursor.next + 1))
    ensures !HasLanded(line, cursor.next)
  {
  }

  lemma DispatchedCursors(st: State, l: nat)
    requires CursorsAreRight(st.store, st.version, st.lines, st.cursors) && l in st.lines
    requires st.cursors[l].sweep.None?
    ensures var next := Dispatched(st, l, st.cursors[l]);
            CursorsAreRight(next.store, next.version, next.lines, next.cursors)
  {
    var cursor := st.cursors[l];
    var moved := cursor.(next := cursor.next + 1);
    assert CursorIsRight(st.store, st.version, l, st.lines[l], cursor);
    NextIsRight(st.store, st.version, l, st.lines[l], cursor);
    CursorsMove(st.store, st.version, st.lines, st.cursors, l, moved);
    PutCursors(st.store, st.version, st.lines, st.cursors[l := moved], l, cursor.next, Flying);
  }

  lemma DispatchedRest(st: State, l: nat)
    requires StoreIsRight(st.store, st.lines) && AckedIsRight(st.lines, st.acked)
    requires LandedIsRight(st.store, st.lines) && SealsAreRight(st.store, st.lines)
    requires l in st.lines && l in st.cursors && st.cursors[l].next !in st.lines[l].puts
    ensures var next := Dispatched(st, l, st.cursors[l]);
            && StoreIsRight(next.store, next.lines) && AckedIsRight(next.lines, next.acked)
            && LandedIsRight(next.store, next.lines) && SealsAreRight(next.store, next.lines)
  {
    var n := st.cursors[l].next;
    PutStore(st.store, st.lines, l, n, Flying);
    PutAcked(st.lines, st.acked, l, n, Flying);
    PutLanded(st.store, st.lines, l, n, Flying);
    PutSeals(st.store, st.lines, l, n, Flying);
  }

  lemma DispatchStep(st: State, l: nat)
    requires Inv(st) && Enabled(st, Dispatch(l))
    ensures Inv(Next(st, Dispatch(l)))
  {
    LineKnown(st, l);
    DispatchedLines(st, l);
    DispatchedCursors(st, l);
    DispatchedRest(st, l);
  }

  lemma ArrivingKeeps(st: State, l: nat, n: nat, refused: Put)
    requires Inv(st) && l in st.lines && n in st.lines[l].puts && !HasLanded(st.lines[l], n)
    requires refused.Taken? || refused.Lost?
    ensures Inv(Arriving(st, l, n, refused))
  {
    LineKnown(st, l);
    if n in st.store {
      PuttingKeeps(st, l, n, refused);
    } else {
      LandingKeeps(st, l, n);
    }
  }

  lemma ClearedLines(st: State, l: nat, n: nat)
    requires LinesAreRight(st.store, st.version, st.head, st.lines) && IsLitter(st.store, st.version, st.head, n)
    requires l == st.version && l in st.lines && n > st.lines[l].sealed
    ensures var next := Cleared(st, l, n); LinesAreRight(next.store, next.version, next.head, next.lines)
  {
    PutLines(st.store, st.version, st.head, st.lines, l, n, Again);
    RemoveLines(st.store, st.version, st.head, PutTo(st.lines, l, n, Again), n);
  }

  lemma ClearedCursors(st: State, l: nat, n: nat)
    requires CursorsAreRight(st.store, st.version, st.lines, st.cursors) && l == st.version && l in st.lines
    requires st.cursors[l].sweep.None? && n < st.cursors[l].next && !HasLanded(st.lines[l], n)
    ensures var next := Cleared(st, l, n); CursorsAreRight(next.store, next.version, next.lines, next.cursors)
  {
    PutCursors(st.store, st.version, st.lines, st.cursors, l, n, Again);
    RemoveCursors(st.store, st.version, PutTo(st.lines, l, n, Again), st.cursors, n);
  }

  lemma ClearedFences(st: State, l: nat, n: nat)
    requires LinesAreRight(st.store, st.version, st.head, st.lines) && IsLitter(st.store, st.version, st.head, n)
    requires LandedIsRight(st.store, st.lines) && SealsAreRight(st.store, st.lines)
    requires l in st.lines && !HasLanded(st.lines[l], n)
    ensures var next := Cleared(st, l, n); LandedIsRight(next.store, next.lines) && SealsAreRight(next.store, next.lines)
  {
    RemoveLanded(st.store, st.version, st.head, st.lines, n);
    RemoveSeals(st.store, st.lines, n);
    PutLanded(st.store - {n}, st.lines, l, n, Again);
    PutSeals(st.store - {n}, st.lines, l, n, Again);
  }

  lemma ClearedRest(st: State, l: nat, n: nat)
    requires LinesAreRight(st.store, st.version, st.head, st.lines) && IsLitter(st.store, st.version, st.head, n)
    requires StoreIsRight(st.store, st.lines) && TakersAreRight(st.store, st.version, st.head, st.takers)
    requires AckedIsRight(st.lines, st.acked) && l in st.lines && !HasLanded(st.lines[l], n)
    ensures var next := Cleared(st, l, n);
            && StoreIsRight(next.store, next.lines) && AckedIsRight(next.lines, next.acked)
            && TakersAreRight(next.store, next.version, next.head, next.takers)
  {
    PutStore(st.store, st.lines, l, n, Again);
    RemoveStore(st.store, PutTo(st.lines, l, n, Again), n);
    PutAcked(st.lines, st.acked, l, n, Again);
    RemoveTakers(st.store, st.version, st.head, st.takers, n);
  }

  lemma ClearStep(st: State, l: nat, n: nat)
    requires Inv(st) && Enabled(st, Clear(l, n)) && st.version == l
    ensures Inv(Next(st, Clear(l, n)))
  {
    LineKnown(st, l);
    assert HasDoubts(st.lines[l], n);
    OthersWindow(st.store, st.version, st.head, st.lines, n);
    ClearedLines(st, l, n);
    ClearedCursors(st, l, n);
    ClearedFences(st, l, n);
    ClearedRest(st, l, n);
  }

  lemma PutSteps(st: State, a: Action)
    requires Inv(st) && Enabled(st, a) && Careful(st, a)
    requires a.Land? || a.Look? || a.Check? || a.Clear? || a.Reput?
    ensures Inv(Next(st, a))
  {
    LineKnown(st, a.line);
    match a
    case Land(l, at) => ArrivingKeeps(st, l, at, Taken);
    case Look(l, at) => PuttingKeeps(st, l, at, if HoldsWindow(st.store, at) then Suspect else Lost);
    case Check(l, at) =>
      assert HasDoubts(st.lines[l], at);
      PuttingKeeps(st, l, at, if st.head == st.lines[l].sealed then Doomed else Lost);
    case Clear(l, at) => ClearStep(st, l, at);
    case Reput(l, at) => ArrivingKeeps(st, l, at, Lost);
  }

  lemma StepKeeps(st: State, a: Action)
    requires Inv(st) && Enabled(st, a) && Careful(st, a)
    ensures Inv(Next(st, a))
  {
    match a
    case Delete(l) => DeleteStep(st, l, st.cursors[l].sweep.value.at + 1, Next(st, a));
    case Dispatch(l) => DispatchStep(st, l);
    case Load(_) => TakerSteps(st, a);
    case Find(_, _) => TakerSteps(st, a);
    case PutSeal(_) => TakerSteps(st, a);
    case Swap(_, _) => TakerSteps(st, a);
    case Probe(l, at) => ProbeStep(st, l, at);
    case Fetch(l) => FetchStep(st, l);
    case EndSweep(l) => EndSweepStep(st, l);
    case Resolve(l) => ResolveStep(st, l);
    case Land(_, _) => PutSteps(st, a);
    case Look(_, _) => PutSteps(st, a);
    case Check(_, _) => PutSteps(st, a);
    case Clear(_, _) => PutSteps(st, a);
    case Reput(_, _) => PutSteps(st, a);
  }

  // Runs.

  ghost predicate Reached(st: State) {
    exists run :: Runs.After(Step, START, run) == Some(st)
  }

  /** A step as the code takes it, where the code's luck holds. */
  ghost function Carefully(st: State, a: Action): Option<State> {
    if Careful(st, a) then Step(st, a) else None
  }

  ghost predicate CarefullyReached(st: State) {
    exists run :: Runs.After(Carefully, START, run) == Some(st)
  }

  lemma ReachedIsRight(st: State)
    requires CarefullyReached(st)
    ensures Inv(st)
  {
    var run :| Runs.After(Carefully, START, run) == Some(st);
    forall s, a | Inv(s) && Carefully(s, a).Some?
      ensures Inv(Carefully(s, a).value)
    {
      StepKeeps(s, a);
    }
    Runs.Always(Carefully, Inv, START, run);
  }

  /** An acknowledged window and every window of its line before it are where
      they landed. */
  lemma AckedIsThere(store: Store, lines: map<nat, Line>, acked: set<(nat, nat)>, l: nat, n: nat, k: nat)
    requires LandedIsRight(store, lines) && AckedIsRight(lines, acked)
    requires (l, n) in acked && l in lines && lines[l].sealed < k <= n
    ensures k in store && store[k] == WindowOf(l, lines[l], k)
  {
    forall j | lines[l].sealed < j <= n
      ensures !IsFence(store, lines[l], j)
    {
      assert HasLanded(lines[l], j);
    }
    assert HasLanded(lines[l], k) && !Fenced(store, lines[l], k - 1);
  }

  /** An ack is never a lie: whatever any line acknowledged is in the store, as
      its line wrote it, whatever has been sealed over it. */
  lemma AckedStays(st: State, l: nat, n: nat)
    requires CarefullyReached(st) && (l, n) in st.acked
    ensures l in st.lines && n in st.store && st.store[n] == WindowOf(l, st.lines[l], n)
  {
    ReachedIsRight(st);
    AckedIsThere(st.store, st.lines, st.acked, l, n, n);
  }

  /** No position is acknowledged by two lines. */
  lemma OneLineAcknowledges(st: State, k: nat, l: nat, n: nat)
    requires CarefullyReached(st) && (k, n) in st.acked && (l, n) in st.acked
    ensures k == l
  {
    ReachedIsRight(st);
    AckedIsThere(st.store, st.lines, st.acked, k, n, n);
    AckedIsThere(st.store, st.lines, st.acked, l, n, n);
  }

  /** A line that was fenced acknowledges nothing at or past the seal of the
      line the manifest names now. */
  lemma FencedLinesStop(st: State, l: nat, n: nat)
    requires CarefullyReached(st) && (l, n) in st.acked && l != st.version
    ensures n < st.head
  {
    ReachedIsRight(st);
    LineKnown(st, l);
    LineKnown(st, st.version);
    if n >= st.head {
      AckedIsThere(st.store, st.lines, st.acked, l, n, st.head);
    }
  }
}
