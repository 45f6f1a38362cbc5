/** One position of the log on three media: two zones and a standard bucket,
    each of which keeps the first bytes it is given.

    An object is a header of 28 bytes, its kind and position and the digest of
    the one before it, and what follows. A reader fetches whole objects, and a
    probe compares headers. */
module Quorum {
  import opened Wrappers
  import Runs

  datatype Medium = Az1 | Az2 | Standard

  datatype Object = Object(header: nat, body: nat)

  predicate SameHeader(a: Option<Object>, b: Option<Object>) {
    a.Some? && b.Some? && a.value.header == b.value.header
  }

  datatype Media = Media(az1: Option<Object>, az2: Option<Object>, standard: Option<Object>) {
    function Get(m: Medium): Option<Object> {
      match m
      case Az1 => az1
      case Az2 => az2
      case Standard => standard
    }

    /** The first bytes stay. */
    function Put(m: Medium, bytes: Object): Media {
      if Get(m).Some? then this
      else
        match m
        case Az1 => this.(az1 := Some(bytes))
        case Az2 => this.(az2 := Some(bytes))
        case Standard => this.(standard := Some(bytes))
    }

    /** What the reader takes the position to hold. */
    function Fetch(): Option<Object> {
      if az1.Some? && az1 == az2 then az1
      else if az1.None? && az2.None? then None
      else if standard.Some? && standard == az1 then az1
      else if standard.Some? && standard == az2 then az2
      else None
    }

    /** What a probe takes it to be. */
    predicate Present() {
      if SameHeader(az1, az2) then true
      else if az1.None? && az2.None? then false
      else SameHeader(standard, az1) || SameHeader(standard, az2)
    }
  }

  /** Two media hold these bytes, and one of the two is a zone: the reader asks
      the standard bucket only to break a tie. */
  predicate Owns(media: Media, bytes: Object) {
    || (media.az1 == Some(bytes) && media.az2 == Some(bytes))
    || (media.az1 == Some(bytes) && media.standard == Some(bytes))
    || (media.az2 == Some(bytes) && media.standard == Some(bytes))
  }

  /** The reader finds the owner, and there is one owner at most. What it finds a
      probe says is there. */
  lemma FetchIsTheOwner(media: Media, bytes: Object)
    ensures media.Fetch() == Some(bytes) <==> Owns(media, bytes)
    ensures media.Fetch().Some? ==> media.Present()
  {
  }

  /** Two media hold objects of one header, whatever follows it. */
  ghost predicate ShareAHeader(media: Media, a: Medium, b: Medium) {
    exists header, x, y :: media.Get(a) == Some(Object(header, x)) && media.Get(b) == Some(Object(header, y))
  }

  ghost predicate IsTold(media: Media) {
    ShareAHeader(media, Az1, Az2) || ShareAHeader(media, Az1, Standard) || ShareAHeader(media, Az2, Standard)
  }

  lemma SharedIff(media: Media, a: Medium, b: Medium)
    ensures ShareAHeader(media, a, b) <==> SameHeader(media.Get(a), media.Get(b))
  {
    if SameHeader(media.Get(a), media.Get(b)) {
      var x, y := media.Get(a).value, media.Get(b).value;
      assert media.Get(a) == Some(Object(x.header, x.body)) && media.Get(b) == Some(Object(x.header, y.body));
    }
  }

  /** A probe finds something if and only if two media, one of them a zone, share a
      header. */
  lemma PresentIff(media: Media)
    ensures media.Present() <==> IsTold(media)
  {
    SharedIff(media, Az1, Az2);
    SharedIff(media, Az1, Standard);
    SharedIff(media, Az2, Standard);
  }

  /** Two media hold objects of one header, one of the two is a zone, and no two
      hold one object. */
  ghost predicate IsPhantom(media: Media) {
    IsTold(media) && forall bytes :: !Owns(media, bytes)
  }

  /** A probe says what a reader does not find if and only if it is a phantom. */
  lemma ProbedInVainIff(media: Media)
    ensures media.Present() && media.Fetch().None? <==> IsPhantom(media)
  {
    PresentIff(media);
    forall bytes
      ensures Owns(media, bytes) <==> media.Fetch() == Some(bytes)
    {
      FetchIsTheOwner(media, bytes);
    }
    if media.Fetch().Some? {
      assert Owns(media, media.Fetch().value);
    }
  }

  // Writers and sealers, each put a request of its own.

  datatype Agent = Agent(id: nat, bytes: Object)

  /** `wins` is the media that took each agent's bytes. */
  datatype State = State(media: Media, wins: map<Agent, set<Medium>>)

  /** One put of one agent reaches one medium. */
  datatype Action = Reach(agent: Agent, medium: Medium)

  function WinsOf(st: State, agent: Agent): set<Medium> {
    if agent in st.wins then st.wins[agent] else {}
  }

  function Step(st: State, a: Action): Option<State> {
    var won := if st.media.Get(a.medium).None? then {a.medium} else {};
    Some(State(st.media.Put(a.medium, a.agent.bytes), st.wins[a.agent := WinsOf(st, a.agent) + won]))
  }

  ghost predicate Inv(st: State) {
    forall agent, m :: m in WinsOf(st, agent) ==> st.media.Get(m) == Some(agent.bytes)
  }

  const EMPTY := State(Media(None, None, None), map[])

  ghost predicate Reached(st: State) {
    exists run :: Runs.After(Step, EMPTY, run) == Some(st)
  }

  lemma PutThenGet(media: Media, m: Medium, bytes: Object, k: Medium)
    ensures media.Put(m, bytes).Get(k) == if k == m && media.Get(m).None? then Some(bytes) else media.Get(k)
  {
    match m
    case Az1 =>
    case Az2 =>
    case Standard =>
  }

  lemma StepKeeps(st: State, a: Action)
    requires Inv(st)
    ensures Inv(Step(st, a).value)
  {
    var next := Step(st, a).value;
    forall agent, m | m in WinsOf(next, agent)
      ensures next.media.Get(m) == Some(agent.bytes)
    {
      PutThenGet(st.media, a.medium, a.agent.bytes, m);
      assert m in WinsOf(st, agent) || (agent == a.agent && m == a.medium && st.media.Get(m).None?);
    }
  }

  lemma ReachedIsRight(st: State)
    requires Reached(st)
    ensures Inv(st)
  {
    var run :| Runs.After(Step, EMPTY, run) == Some(st);
    forall s, a | Inv(s) && Step(s, a).Some?
      ensures Inv(Step(s, a).value)
    {
      StepKeeps(s, a);
    }
    Runs.Always(Step, Inv, EMPTY, run);
  }

  /** Whoever two media took the bytes of owns the position, so two agents with
      different bytes never both do, and an ack and a seal exclude each other. */
  lemma TwoWinsOwn(st: State, agent: Agent, m: Medium, k: Medium)
    requires Reached(st) && m in WinsOf(st, agent) && k in WinsOf(st, agent) && m != k
    ensures st.media.Fetch() == Some(agent.bytes)
  {
    ReachedIsRight(st);
    FetchIsTheOwner(st.media, agent.bytes);
    assert st.media.Get(m) == Some(agent.bytes) && st.media.Get(k) == Some(agent.bytes);
  }

  function After(media: Media, puts: seq<(Medium, Object)>): Media
    decreases |puts|
  {
    if puts == [] then media else After(media.Put(puts[0].0, puts[0].1), puts[1..])
  }

  /** What is owned stays owned, whatever is put after. */
  lemma {:induction false} OwnedForGood(media: Media, owner: Object, puts: seq<(Medium, Object)>)
    requires Owns(media, owner)
    ensures Owns(After(media, puts), owner)
    decreases |puts|
  {
    if puts != [] {
      OwnedForGood(media.Put(puts[0].0, puts[0].1), owner, puts[1..]);
    }
  }

  // A seal, put by one sealer with nobody in between.

  datatype Outcome = Sealed | Occupied

  /** Both zones, and the standard bucket only where one zone was won. */
  function Seal(media: Media, seal: Object): (Outcome, Media) {
    var both := media.Put(Az1, seal).Put(Az2, seal);
    match (media.az1.None?, media.az2.None?)
    case (true, true) => (Sealed, both)
    case (false, false) => (Occupied, both)
    case _ => if media.standard.None? then (Sealed, both.Put(Standard, seal)) else (Occupied, both)
  }

  /** The zones were taken by different bytes and the standard bucket agrees
      with neither. */
  predicate IsTorn(media: Media) {
    media.az1.Some? && media.az2.Some? && media.az1 != media.az2
    && media.standard != media.az1 && media.standard != media.az2
  }

  /** One zone is empty, and the other, the standard bucket and the seal are
      three different byte strings. */
  predicate IsAboutToTear(media: Media, seal: Object) {
    var other := if media.az1.None? then media.az2 else media.az1;
    && (media.az1.None? <==> media.az2.Some?) && media.standard.Some?
    && other != media.standard && other != Some(seal) && media.standard != Some(seal)
  }

  /** A seal that is up owns the position. One refused lost to an owner, as the
      takeover takes it to mean, unless the position was torn before it or the
      seal's own put to the empty zone tears it. */
  lemma RefusedByAnOwnerIff(media: Media, seal: Object)
    ensures var (outcome, after) := Seal(media, seal);
            && (outcome == Sealed ==> Owns(after, seal))
            && (outcome == Occupied && (forall owner: Object :: !Owns(after, owner)) <==>
                  IsTorn(media) || IsAboutToTear(media, seal))
  {
    var after := Seal(media, seal).1;
    if after.Fetch().Some? {
      FetchIsTheOwner(after, after.Fetch().value);
    }
    forall owner: Object
      ensures Owns(after, owner) <==> after.Fetch() == Some(owner)
    {
      FetchIsTheOwner(after, owner);
    }
  }

  /** A torn position still probes as taken if and only if two of its headers are
      the same. There the search for the head goes on past it or ends on it, and
      reading what it ended on fails. */
  lemma TornIsProbedIff(media: Media)
    requires IsTorn(media)
    ensures media.Present() <==> IsPhantom(media)
    ensures media.Present() <==> IsTold(media)
  {
    ProbedInVainIff(media);
    PresentIff(media);
  }

  // Which of these a position comes to.

  lemma ReachesOne(st: State, medium: Medium, bytes: Option<Object>) returns (next: State)
    requires Reached(st) && st.media.Get(medium).None?
    ensures Reached(next) && next.media.Get(medium) == bytes
    ensures forall k :: k != medium ==> next.media.Get(k) == st.media.Get(k)
  {
    next := st;
    if bytes.Some? {
      var run :| Runs.After(Step, EMPTY, run) == Some(st);
      var run';
      run', next := Runs.Then(Step, EMPTY, run, st, Reach(Agent(0, bytes.value), medium));
      forall k
        ensures next.media.Get(k) == if k == medium then bytes else st.media.Get(k)
      {
        PutThenGet(st.media, medium, bytes.value, k);
      }
    }
  }

  /** With agents of any bytes, all of them. */
  lemma EveryMediaIsReached(media: Media) returns (st: State)
    ensures Reached(st) && st.media == media
  {
    assert Runs.After(Step, EMPTY, []) == Some(EMPTY);
    st := ReachesOne(EMPTY, Az1, media.az1);
    st := ReachesOne(st, Az2, media.az2);
    st := ReachesOne(st, Standard, media.standard);
    assert st.media.Get(Az1) == media.az1 && st.media.Get(Az2) == media.az2 && st.media.Get(Standard) == media.standard;
  }

  ghost predicate Holds(media: Media, one: Object, two: Object) {
    forall m :: media.Get(m).Some? ==> media.Get(m).value == one || media.Get(m).value == two
  }

  ghost predicate IsBy(run: seq<Action>, one: Object, two: Object) {
    forall i :: 0 <= i < |run| ==> run[i].agent.bytes == one || run[i].agent.bytes == two
  }

  lemma {:induction false} RunHolds(st: State, run: seq<Action>, one: Object, two: Object)
    requires Holds(st.media, one, two) && IsBy(run, one, two)
    ensures Runs.After(Step, st, run).Some? && Holds(Runs.After(Step, st, run).value.media, one, two)
    decreases |run|
  {
    if run != [] {
      var next := Step(st, run[0]).value;
      forall m
        ensures next.media.Get(m).Some? ==> next.media.Get(m).value == one || next.media.Get(m).value == two
      {
        PutThenGet(st.media, run[0].medium, run[0].agent.bytes, m);
      }
      RunHolds(next, run[1..], one, two);
    }
  }

  /** With one window and one seal, however many agents put each, a seal is
      refused without an owner only where the two have a zone each and nobody
      has put anything in the standard bucket. */
  lemma RefusedByAWindowIff(run: seq<Action>, st: State, window: Object, seal: Object)
    requires Runs.After(Step, EMPTY, run) == Some(st) && IsBy(run, window, seal)
    ensures var (outcome, after) := Seal(st.media, seal);
            outcome == Occupied && (forall owner: Object :: !Owns(after, owner)) <==>
            window != seal && (st.media == Media(Some(window), Some(seal), None) || st.media == Media(Some(seal), Some(window), None))
  {
    RunHolds(EMPTY, run, window, seal);
    RefusedByAnOwnerIff(st.media, seal);
    var az1, az2, standard := st.media.Get(Az1), st.media.Get(Az2), st.media.Get(Standard);
    assert az1 == st.media.az1 && az2 == st.media.az2 && standard == st.media.standard;
  }

  // A torn position.

  /** The position after one takeover after another tried to seal it. */
  function Sealings(media: Media, seals: seq<Object>): (seq<Outcome>, Media)
    decreases |seals|
  {
    if seals == [] then ([], media)
    else
      var (outcome, after) := Seal(media, seals[0]);
      var (outcomes, end) := Sealings(after, seals[1..]);
      ([outcome] + outcomes, end)
  }

  /** No takeover gets past a torn position: every seal from then on is refused,
      and none changes anything. */
  lemma {:induction false} TornForGood(media: Media, seals: seq<Object>)
    requires IsTorn(media)
    ensures Sealings(media, seals).1 == media && media.Fetch().None?
    ensures |Sealings(media, seals).0| == |seals|
    ensures forall i :: 0 <= i < |seals| ==> Sealings(media, seals).0[i] == Occupied
    decreases |seals|
  {
    if seals != [] {
      TornForGood(media, seals[1..]);
    }
  }

  /** What reaches the standard bucket first. */
  function FirstTieBreak(puts: seq<(Medium, Object)>): Option<Object>
    decreases |puts|
  {
    if puts == [] then None
    else if puts[0].0.Standard? then Some(puts[0].1)
    else FirstTieBreak(puts[1..])
  }

  /** It ends if and only if one of the two that have a zone is also the first to
      reach the standard bucket. */
  lemma {:induction false} TornEndsIff(media: Media, puts: seq<(Medium, Object)>)
    requires IsTorn(media)
    ensures After(media, puts).Fetch().Some? <==>
            && media.standard.None? && FirstTieBreak(puts).Some?
            && (FirstTieBreak(puts) == media.az1 || FirstTieBreak(puts) == media.az2)
    decreases |puts|
  {
    if puts != [] {
      var next := media.Put(puts[0].0, puts[0].1);
      if puts[0].0.Standard? && media.standard.None? && (Some(puts[0].1) == media.az1 || Some(puts[0].1) == media.az2) {
        assert Owns(next, puts[0].1);
        OwnedForGood(next, puts[0].1, puts[1..]);
        FetchIsTheOwner(After(next, puts[1..]), puts[0].1);
      } else {
        TornEndsIff(next, puts[1..]);
      }
    }
  }

  /** One writer and one sealer that each reached one zone and stopped leave the
      position torn. */
  lemma TornIsReached(writer: Agent, sealer: Agent) returns (run: seq<Action>, st: State)
    requires writer.bytes != sealer.bytes
    ensures Runs.After(Step, EMPTY, run) == Some(st) && IsBy(run, writer.bytes, sealer.bytes)
    ensures IsTorn(st.media) && st.media.standard.None?
  {
    run, st := [], EMPTY;
    run, st := Runs.Then(Step, EMPTY, run, st, Reach(writer, Az1));
    run, st := Runs.Then(Step, EMPTY, run, st, Reach(sealer, Az1));
    run, st := Runs.Then(Step, EMPTY, run, st, Reach(sealer, Az2));
  }

  /** Two writers of one position that follow windows of one digest, and each
      reached one zone and stopped, leave a phantom there for good: every probe
      finds it, no fetch does, and every seal is refused. */
  lemma PhantomIsReached(one: Agent, two: Agent, seals: seq<Object>) returns (run: seq<Action>, st: State)
    requires one.bytes.header == two.bytes.header && one.bytes.body != two.bytes.body
    ensures Runs.After(Step, EMPTY, run) == Some(st) && IsPhantom(st.media)
    ensures Sealings(st.media, seals).1.Present() && Sealings(st.media, seals).1.Fetch().None?
    ensures forall i :: 0 <= i < |Sealings(st.media, seals).0| ==> Sealings(st.media, seals).0[i] == Occupied
  {
    run, st := [], EMPTY;
    run, st := Runs.Then(Step, EMPTY, run, st, Reach(one, Az1));
    run, st := Runs.Then(Step, EMPTY, run, st, Reach(two, Az2));
    assert st.media == Media(Some(one.bytes), Some(two.bytes), None);
    TornIsProbedIff(st.media);
    TornForGood(st.media, seals);
  }

  // What a fenced writer's late puts do to the owner.

  /** A writer's window is durable once two media took it, and lost on the first
      answer that something is there. `order` is the order the answers come in. */
  function IsDurable(media: Media, order: seq<Medium>, wins: nat): bool
    decreases |order|
  {
    wins >= 2 || (order != [] && media.Get(order[0]).None? && IsDurable(media, order[1..], wins + 1))
  }

  /** An owner that lost the position clears it and writes on if what it can read
      there is a window that is not its own, and takes anything else for a
      fence. */
  predicate KeepsTheShard(media: Media, order: seq<Medium>, isLitter: Object -> bool) {
    IsDurable(media, order, 0) || (media.Fetch().Some? && isLitter(media.Fetch().value))
  }

  lemma KeepsTheShardIff(media: Media, order: seq<Medium>, isLitter: Object -> bool)
    requires |order| >= 2
    ensures KeepsTheShard(media, order, isLitter) <==>
            || (media.Get(order[0]).None? && media.Get(order[1]).None?)
            || exists bytes :: Owns(media, bytes) && isLitter(bytes)
  {
    assert IsDurable(media, order[1..], 1) <==> media.Get(order[1]).None?;
    forall bytes
      ensures Owns(media, bytes) <==> media.Fetch() == Some(bytes)
    {
      FetchIsTheOwner(media, bytes);
    }
  }

  /** One late put of a fenced writer, on one zone: no reader sees it, so the owner
      does not clear it, and is done with the shard unless the other zone and the
      standard bucket both answer first. */
  lemma OneStragglerFencesIff(zone: Medium, bytes: Object, order: seq<Medium>, isLitter: Object -> bool)
    requires !zone.Standard? && |order| >= 2
    ensures var media := Media(None, None, None).Put(zone, bytes);
            !KeepsTheShard(media, order, isLitter) <==> order[0] == zone || order[1] == zone
  {
    var media := Media(None, None, None).Put(zone, bytes);
    PutThenGet(Media(None, None, None), zone, bytes, order[0]);
    PutThenGet(Media(None, None, None), zone, bytes, order[1]);
    KeepsTheShardIff(media, order, isLitter);
  }
}
