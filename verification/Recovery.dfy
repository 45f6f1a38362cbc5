/** What recovery can read of a shard's log: which seals leave it readable, and
    that nothing repairs it past one that does not.

    A takeover looks at one segment, the one it takes for the head, and seals
    after it. The guards here are about what stands there and below, up to the
    seal the manifest names. One is in terms of kinds and digests, and says
    whether the seal links. The other is in terms of who wrote what, and says
    whether it goes on to: they are the same where no line's window has the
    digest of another's, and a window sent again after a failover has. */
module Recovery {
  import opened Wrappers
  import opened Chain
  import opened ChainHead
  import opened Takeover
  import Runs

  // Links as segments come and go.

  lemma AddingKeepsLinks(store: Store, n: nat, segment: Segment, m: nat)
    requires 0 < n && n !in store && Linked(store, m)
    ensures m < n && Linked(store[n := segment], m)
  {
    var store' := store[n := segment];
    assert n <= m ==> Links(store, n);
    forall k | 0 < k <= m
      ensures Links(store', k)
    {
      assert Links(store, k);
      assert k > 1 ==> Links(store, k - 1);
    }
  }

  lemma TakingKeepsLinks(store: Store, n: nat, m: nat)
    requires m < n && Linked(store, m)
    ensures Linked(store - {n}, m)
  {
    var store' := store - {n};
    forall k | 0 < k <= m
      ensures Links(store', k)
    {
      assert Links(store, k);
    }
  }

  /** A line's windows one after the other carry on the chain its seal is in. */
  lemma RunIsLinked(store: Store, l: nat, line: Line, n: nat)
    requires HoldsSeal(store, line.sealed) && Linked(store, line.sealed) && line.sealed <= n
    requires forall k :: line.sealed < k <= n ==> k in store && store[k] == WindowOf(l, line, k)
    ensures Linked(store, n)
  {
    forall k | 0 < k <= n
      ensures Links(store, k)
    {
      assert k <= line.sealed ==> Links(store, k);
      assert k > line.sealed + 1 ==> store[k - 1] == WindowOf(l, line, k - 1);
    }
  }

  // The guard on a seal.

  /** Every position past the manifest's seal and up to here holds a window of
      the line the manifest names. */
  ghost predicate IsOwnersRun(store: Store, version: nat, head: nat, at: nat) {
    head <= at && forall k :: head < k <= at ==> IsLinesWindow(store, version, k)
  }

  predicate IsLinesWindow(store: Store, l: nat, n: nat) {
    HoldsWindow(store, n) && store[n].line == l
  }

  /** What keeps a log readable: what was fetched is still there, and it is a
      seal, or the end of nothing but the owner's windows since the seal the
      manifest names. */
  ghost predicate MayBeSealed(st: State, at: nat, prev: Digest) {
    prev == DigestAt(st.store, at) && (HoldsSeal(st.store, at) || IsOwnersRun(st.store, st.version, st.head, at))
  }

  predicate IsLinkingWindow(store: Store, n: nat) {
    0 < n && HoldsWindow(store, n) && Links(store, n)
  }

  ghost predicate IsLinkedRun(store: Store, head: nat, at: nat) {
    head <= at && forall k :: head < k <= at ==> IsLinkingWindow(store, k)
  }

  /** What a takeover can tell from kinds and digests. */
  ghost predicate LooksSealable(store: Store, head: nat, at: nat, prev: Digest) {
    prev == DigestAt(store, at) && (HoldsSeal(store, at) || IsLinkedRun(store, head, at))
  }

  ghost predicate SealsLink(store: Store) {
    forall k :: HoldsSeal(store, k) ==> Linked(store, k)
  }

  lemma HeadIsLinked(st: State)
    requires LinesAreRight(st.store, st.version, st.head, st.lines) && SealsLink(st.store)
    ensures Linked(st.store, st.head)
    ensures st.version > 0 ==> st.version in st.lines && HoldsSeal(st.store, st.head)
  {
    if st.version > 0 {
      assert LineIsRight(st.store, st.version, st.version, st.lines[st.version]);
    }
  }

  lemma OwnersWindowIs(st: State, n: nat)
    requires LinesAreRight(st.store, st.version, st.head, st.lines) && StoreIsRight(st.store, st.lines)
    requires IsLinesWindow(st.store, st.version, n)
    ensures st.version > 0 && st.version in st.lines && st.lines[st.version].sealed == st.head
    ensures st.store[n] == WindowOf(st.version, st.lines[st.version], n)
  {
    assert IsOf(st.store, st.lines, n);
    assert LineIsRight(st.store, st.version, st.version, st.lines[st.version]);
  }

  lemma OwnersRunLinks(st: State, at: nat)
    requires LinesAreRight(st.store, st.version, st.head, st.lines) && StoreIsRight(st.store, st.lines)
    requires SealsLink(st.store) && IsOwnersRun(st.store, st.version, st.head, at)
    ensures Linked(st.store, at) && IsLinkedRun(st.store, st.head, at)
  {
    HeadIsLinked(st);
    forall k | st.head < k <= at
      ensures st.version > 0 && st.version in st.lines && st.lines[st.version].sealed == st.head
      ensures k in st.store && st.store[k] == WindowOf(st.version, st.lines[st.version], k)
    {
      assert IsLinesWindow(st.store, st.version, k);
      OwnersWindowIs(st, k);
    }
    if st.head < at {
      assert IsLinesWindow(st.store, st.version, at);
      OwnersWindowIs(st, at);
      RunIsLinked(st.store, st.version, st.lines[st.version], at);
      forall k | st.head < k <= at
        ensures IsLinkingWindow(st.store, k)
      {
        assert IsLinesWindow(st.store, st.version, k) && Links(st.store, k);
      }
    }
  }

  /** Where the last of a linked chain is a window past the manifest's seal,
      everything from that seal on is one: only the first window of a line links
      to a seal, and no line has sealed past the manifest's. */
  lemma {:induction false} LinkedIsRun(st: State, at: nat)
    requires LinesAreRight(st.store, st.version, st.head, st.lines) && StoreIsRight(st.store, st.lines)
    requires Linked(st.store, at) && st.head < at && HoldsWindow(st.store, at)
    ensures IsLinkedRun(st.store, st.head, at)
    decreases at
  {
    var l := st.store[at].line;
    assert IsOf(st.store, st.lines, at) && Links(st.store, at);
    assert LineIsRight(st.store, st.version, l, st.lines[l]);
    assert st.lines[l].sealed <= st.head by {
      assert LineIsRight(st.store, st.version, st.version, st.lines[st.version]);
    }
    assert IsLinkingWindow(st.store, at);
    if at > st.head + 1 {
      LinkedIsRun(st, at - 1);
    }
  }

  // Whose windows link.

  /** The other line names, in the window after, the digest the owner's window
      has here. */
  predicate Resends(owner: Line, other: Line, n: nat) {
    n in owner.puts && n + 1 in other.puts && other.tails(n) == owner.tails(n)
  }

  ghost predicate NoneResent(version: nat, head: nat, lines: map<nat, Line>) {
    forall k, n: nat :: version in lines && k in lines && k != version && n > head ==> !Resends(lines[version], lines[k], n)
  }

  /** Where nothing was sent again, past the owner's seal the only windows that
      link are the owner's: another line's links back to its own, and the first of
      those to the seal. */
  lemma {:induction false} LinkedIsOwn(st: State, at: nat, n: nat)
    requires LinesAreRight(st.store, st.version, st.head, st.lines) && StoreIsRight(st.store, st.lines)
    requires NoneResent(st.version, st.head, st.lines)
    requires Linked(st.store, at) && st.head < n <= at && HoldsWindow(st.store, n)
    ensures st.store[n].line == st.version
    decreases n
  {
    var k := st.store[n].line;
    assert IsOf(st.store, st.lines, n) && Links(st.store, n);
    assert LineIsRight(st.store, st.version, k, st.lines[k]);
    assert LineIsRight(st.store, st.version, st.version, st.lines[st.version]);
    if k != st.version {
      assert HoldsWindow(st.store, n - 1);
      LinkedIsOwn(st, at, n - 1);
      assert IsOf(st.store, st.lines, n - 1);
      assert Resends(st.lines[st.version], st.lines[k], n - 1);
    }
  }

  /** So there a takeover can tell from kinds and digests whether the owner wrote
      all of a run. */
  lemma OwnersRunIff(st: State, at: nat)
    requires LinesAreRight(st.store, st.version, st.head, st.lines) && StoreIsRight(st.store, st.lines)
    requires SealsLink(st.store) && NoneResent(st.version, st.head, st.lines)
    ensures IsOwnersRun(st.store, st.version, st.head, at) <==> IsLinkedRun(st.store, st.head, at)
  {
    HeadIsLinked(st);
    if IsOwnersRun(st.store, st.version, st.head, at) {
      OwnersRunLinks(st, at);
    }
    if IsLinkedRun(st.store, st.head, at) {
      RunCarriesOn(st.store, st.head, at);
      forall k | st.head < k <= at
        ensures IsLinesWindow(st.store, st.version, k)
      {
        assert IsLinkingWindow(st.store, k);
        LinkedIsOwn(st, at, k);
      }
    }
  }

  lemma RunCarriesOn(store: Store, head: nat, at: nat)
    requires Linked(store, head) && IsLinkedRun(store, head, at)
    ensures Linked(store, at)
  {
    forall k | 0 < k <= at
      ensures Links(store, k)
    {
      assert k <= head || IsLinkingWindow(store, k);
    }
  }

  lemma LinkedReachesTheHead(st: State, at: nat)
    requires LinesAreRight(st.store, st.version, st.head, st.lines) && SealsLink(st.store) && at + 1 !in st.store
    ensures st.head <= at
  {
    HeadIsLinked(st);
    assert at + 1 <= st.head ==> Links(st.store, at + 1);
  }

  lemma SealedLinksIff(store: Store, at: nat, prev: Digest)
    requires at + 1 !in store
    ensures Linked(store[at + 1 := Seal(prev)], at + 1) <==> Linked(store, at) && prev == DigestAt(store, at)
  {
    var sealed := store[at + 1 := Seal(prev)];
    forall k | 0 < k <= at
      ensures Links(sealed, k) <==> Links(store, k)
    {
    }
    assert Links(sealed, at + 1) <==> prev == DigestAt(store, at);
  }

  /** A seal carries on the chain if and only if it looks as if it may, whoever
      wrote what. */
  lemma GuardIsExact(st: State, at: nat, prev: Digest)
    requires LinesAreRight(st.store, st.version, st.head, st.lines) && StoreIsRight(st.store, st.lines)
    requires SealsLink(st.store) && at + 1 !in st.store
    ensures Linked(st.store[at + 1 := Seal(prev)], at + 1) <==> LooksSealable(st.store, st.head, at, prev)
    ensures MayBeSealed(st, at, prev) ==> LooksSealable(st.store, st.head, at, prev)
    ensures NoneResent(st.version, st.head, st.lines) ==>
              (MayBeSealed(st, at, prev) <==> LooksSealable(st.store, st.head, at, prev))
  {
    SealedLinksIff(st.store, at, prev);
    LinkedReachesTheHead(st, at);
    HeadIsLinked(st);
    if IsOwnersRun(st.store, st.version, st.head, at) {
      OwnersRunLinks(st, at);
    }
    if IsLinkedRun(st.store, st.head, at) {
      RunCarriesOn(st.store, st.head, at);
    }
    if Linked(st.store, at) && at > st.head && !HoldsSeal(st.store, at) {
      assert Links(st.store, at);
      LinkedIsRun(st, at);
    }
    if NoneResent(st.version, st.head, st.lines) {
      OwnersRunIff(st, at);
    }
  }

  // Every seal links, in every run that keeps the guard.

  /** Nothing at or below a seal can be taken away: past the manifest's it is a
      seal, or the end of a run of the owner's windows. */
  ghost predicate IsSolid(store: Store, version: nat, head: nat, k: nat) {
    forall n :: head < n <= k ==> HoldsSeal(store, n) || IsOwnersRun(store, version, head, n)
  }

  ghost predicate SealsAreSolid(store: Store, version: nat, head: nat) {
    forall k :: HoldsSeal(store, k) ==> IsSolid(store, version, head, k)
  }

  lemma LitterIsAbove(store: Store, version: nat, head: nat, n: nat, k: nat)
    requires SealsAreSolid(store, version, head) && IsLitter(store, version, head, n) && HoldsSeal(store, k)
    ensures k < n
  {
    assert IsSolid(store, version, head, k);
    assert IsOwnersRun(store, version, head, n) ==> IsLinesWindow(store, version, n);
  }

  lemma SolidStays(store: Store, store': Store, version: nat, head: nat, k: nat)
    requires IsSolid(store, version, head, k)
    requires forall n :: head < n <= k && n in store ==> n in store' && store'[n] == store[n]
    ensures IsSolid(store', version, head, k)
  {
    forall n | head < n <= k && !HoldsSeal(store', n)
      ensures IsOwnersRun(store', version, head, n)
    {
      assert !HoldsSeal(store, n) by {
        assert n in store ==> store'[n] == store[n];
      }
      assert IsOwnersRun(store, version, head, n);
      forall j | head < j <= n
        ensures IsLinesWindow(store', version, j)
      {
        assert IsLinesWindow(store, version, j);
      }
    }
  }

  lemma RemovingKeepsSolid(store: Store, version: nat, head: nat, n: nat)
    requires SealsAreSolid(store, version, head) && IsLitter(store, version, head, n)
    ensures SealsAreSolid(store - {n}, version, head)
  {
    var store' := store - {n};
    forall k | HoldsSeal(store', k)
      ensures IsSolid(store', version, head, k)
    {
      assert HoldsSeal(store, k);
      LitterIsAbove(store, version, head, n, k);
      SolidStays(store, store', version, head, k);
    }
  }

  lemma AddingKeepsSolid(store: Store, version: nat, head: nat, n: nat, segment: Segment)
    requires SealsAreSolid(store, version, head) && n !in store
    requires segment.Seal? ==> IsSolid(store[n := segment], version, head, n)
    ensures SealsAreSolid(store[n := segment], version, head)
  {
    var store' := store[n := segment];
    forall k | HoldsSeal(store', k)
      ensures IsSolid(store', version, head, k)
    {
      if k != n {
        assert HoldsSeal(store, k);
        SolidStays(store, store', version, head, k);
      }
    }
  }

  /** A seal put where it may be. */
  lemma SealIsSolid(st: State, at: nat, prev: Digest)
    requires SealsAreSolid(st.store, st.version, st.head) && MayBeSealed(st, at, prev) && at + 1 !in st.store
    ensures IsSolid(st.store[at + 1 := Seal(prev)], st.version, st.head, at + 1)
  {
    var store' := st.store[at + 1 := Seal(prev)];
    assert IsSolid(st.store, st.version, st.head, at) by {
      if HoldsSeal(st.store, at) {
      } else {
        forall n | st.head < n <= at
          ensures IsOwnersRun(st.store, st.version, st.head, n)
        {
          assert forall k :: st.head < k <= at ==> IsLinesWindow(st.store, st.version, k);
        }
      }
    }
    SolidStays(st.store, store', st.version, st.head, at);
    forall n | st.head < n <= at + 1
      ensures HoldsSeal(store', n) || IsOwnersRun(store', st.version, st.head, n)
    {
    }
  }

  /** Past the seal that is swapped in there is nothing but seals below a seal. */
  lemma SwappingKeepsSolid(store: Store, version: nat, head: nat, at: nat)
    requires SealsAreSolid(store, version, head) && head < at && HoldsSeal(store, at)
    ensures SealsAreSolid(store, version + 1, at)
  {
    forall k, n | HoldsSeal(store, k) && at < n <= k
      ensures HoldsSeal(store, n)
    {
      assert IsSolid(store, version, head, k);
      assert IsOwnersRun(store, version, head, n) ==> IsLinesWindow(store, version, at);
    }
    forall k | HoldsSeal(store, k)
      ensures IsSolid(store, version + 1, at, k)
    {
    }
  }

  lemma AddingKeepsSeals(store: Store, n: nat, segment: Segment)
    requires SealsLink(store) && 0 < n && n !in store
    requires segment.Seal? ==> Linked(store[n := segment], n)
    ensures SealsLink(store[n := segment])
  {
    var store' := store[n := segment];
    forall k | HoldsSeal(store', k)
      ensures Linked(store', k)
    {
      if k != n {
        assert HoldsSeal(store, k);
        AddingKeepsLinks(store, n, segment, k);
      }
    }
  }

  lemma RemovingKeepsSeals(st: State, n: nat)
    requires SealsLink(st.store) && SealsAreSolid(st.store, st.version, st.head)
    requires IsLitter(st.store, st.version, st.head, n)
    ensures SealsLink(st.store - {n})
  {
    var store' := st.store - {n};
    forall k | HoldsSeal(store', k)
      ensures Linked(store', k)
    {
      assert HoldsSeal(st.store, k);
      LitterIsAbove(st.store, st.version, st.head, n, k);
      TakingKeepsLinks(st.store, n, k);
    }
  }

  /** Deletes by the owner only, and no seal lands where it may not. */
  ghost predicate Guarded(st: State, a: Action) {
    && Careful(st, a)
    && (a.PutSeal? && TakerOf(st, a.taker).Found? && TakerOf(st, a.taker).head + 1 !in st.store ==>
          MayBeSealed(st, TakerOf(st, a.taker).head, TakerOf(st, a.taker).prev))
  }

  ghost predicate IsSound(st: State) {
    Inv(st) && SealsLink(st.store) && SealsAreSolid(st.store, st.version, st.head)
  }

  lemma SealKeepsSeals(st: State, t: nat)
    requires IsSound(st) && Enabled(st, PutSeal(t)) && Guarded(st, PutSeal(t))
    ensures SealsLink(Next(st, PutSeal(t)).store)
    ensures SealsAreSolid(Next(st, PutSeal(t)).store, st.version, st.head)
  {
    var taker := TakerOf(st, t);
    if taker.head + 1 !in st.store {
      GuardIsExact(st, taker.head, taker.prev);
      AddingKeepsSeals(st.store, taker.head + 1, Seal(taker.prev));
      SealIsSolid(st, taker.head, taker.prev);
      AddingKeepsSolid(st.store, st.version, st.head, taker.head + 1, Seal(taker.prev));
    }
  }

  lemma ArrivingKeepsSeals(st: State, l: nat, n: nat, refused: Put)
    requires SealsLink(st.store) && SealsAreSolid(st.store, st.version, st.head) && l in st.lines && 0 < n
    ensures SealsLink(Arriving(st, l, n, refused).store)
    ensures SealsAreSolid(Arriving(st, l, n, refused).store, st.version, st.head)
  {
    if n !in st.store {
      AddingKeepsSeals(st.store, n, WindowOf(l, st.lines[l], n));
      AddingKeepsSolid(st.store, st.version, st.head, n, WindowOf(l, st.lines[l], n));
    }
  }

  lemma ClearedIsLitter(st: State, l: nat, n: nat)
    requires Inv(st) && PutIs(st, l, n, Doomed) && st.version == l
    ensures IsLitter(st.store, st.version, st.head, n)
  {
    LineKnown(st, l);
    assert HasDoubts(st.lines[l], n);
    OthersWindow(st.store, st.version, st.head, st.lines, n);
  }

  function Gone(st: State, a: Action): nat
    requires Enabled(st, a) && (a.Delete? || a.Clear?)
  {
    if a.Delete? then st.cursors[a.line].sweep.value.at + 1 else a.at
  }

  lemma DeletingIs(st: State, a: Action)
    requires Enabled(st, a) && (a.Delete? || a.Clear?)
    ensures Next(st, a).store == st.store - {Gone(st, a)} && Next(st, a).acked == st.acked
  {
  }

  /** What the owner deletes. */
  lemma DeletedIsLitter(st: State, a: Action)
    requires Inv(st) && Enabled(st, a) && Careful(st, a) && (a.Delete? || a.Clear?)
    ensures IsLitter(st.store, st.version, st.head, Gone(st, a))
  {
    if a.Delete? {
      DoomedIsLitter(st, a.line, Gone(st, a));
    } else {
      ClearedIsLitter(st, a.line, a.at);
    }
  }

  lemma DeletingKeepsSeals(st: State, a: Action)
    requires IsSound(st) && Enabled(st, a) && Careful(st, a) && (a.Delete? || a.Clear?)
    ensures SealsLink(Next(st, a).store) && SealsAreSolid(Next(st, a).store, st.version, st.head)
  {
    DeletedIsLitter(st, a);
    DeletingIs(st, a);
    RemovingKeepsSeals(st, Gone(st, a));
    RemovingKeepsSolid(st.store, st.version, st.head, Gone(st, a));
  }

  lemma LandingKeepsSeals(st: State, a: Action)
    requires SealsLink(st.store) && SealsAreSolid(st.store, st.version, st.head)
    requires LinesAreRight(st.store, st.version, st.head, st.lines)
    requires Enabled(st, a) && (a.Land? || a.Reput?)
    ensures SealsLink(Next(st, a).store) && SealsAreSolid(Next(st, a).store, st.version, st.head)
  {
    assert LineIsRight(st.store, st.version, a.line, st.lines[a.line]);
    ArrivingKeepsSeals(st, a.line, a.at, if a.Land? then Taken else Lost);
  }

  predicate LeavesTheStore(a: Action) {
    !(a.PutSeal? || a.Land? || a.Reput? || a.Delete? || a.Clear?)
  }

  lemma OtherStepsLeaveTheStore(st: State, a: Action)
    requires Enabled(st, a) && LeavesTheStore(a)
    ensures Next(st, a).store == st.store
  {
  }

  lemma OtherStepsLeaveTheManifest(st: State, a: Action)
    requires Enabled(st, a) && !a.Swap?
    ensures Next(st, a).version == st.version && Next(st, a).head == st.head
  {
  }

  lemma SwapKeepsSolid(st: State, a: Action)
    requires SealsAreSolid(st.store, st.version, st.head) && Enabled(st, a) && a.Swap?
    requires TakerIsRight(st.store, st.version, st.head, TakerOf(st, a.taker))
    ensures SealsAreSolid(Next(st, a).store, Next(st, a).version, Next(st, a).head)
  {
    var taker := TakerOf(st, a.taker);
    if taker.version == st.version {
      SwappingKeepsSolid(st.store, st.version, st.head, taker.at);
    }
  }

  lemma StepKeepsSeals(st: State, a: Action)
    requires IsSound(st) && Enabled(st, a) && Guarded(st, a)
    ensures SealsLink(Next(st, a).store)
    ensures SealsAreSolid(Next(st, a).store, Next(st, a).version, Next(st, a).head)
  {
    if a.Swap? {
      TakerKnown(st, a.taker);
      OtherStepsLeaveTheStore(st, a);
      SwapKeepsSolid(st, a);
    } else {
      OtherStepsLeaveTheManifest(st, a);
      if LeavesTheStore(a) {
        OtherStepsLeaveTheStore(st, a);
      } else if a.PutSeal? {
        SealKeepsSeals(st, a.taker);
      } else if a.Land? || a.Reput? {
        LandingKeepsSeals(st, a);
      } else {
        DeletingKeepsSeals(st, a);
      }
    }
  }

  // Runs.

  ghost function Guardedly(st: State, a: Action): Option<State> {
    if Guarded(st, a) then Step(st, a) else None
  }

  ghost predicate GuardedlyReached(st: State) {
    exists run :: Runs.After(Guardedly, START, run) == Some(st)
  }

  lemma ReachedIsSound(st: State)
    requires GuardedlyReached(st)
    ensures IsSound(st)
  {
    var run :| Runs.After(Guardedly, START, run) == Some(st);
    forall s, a | IsSound(s) && Guardedly(s, a).Some?
      ensures IsSound(Guardedly(s, a).value)
    {
      StepKeeps(s, a);
      StepKeepsSeals(s, a);
    }
    Runs.Always(Guardedly, IsSound, START, run);
  }

  /** Recovery never fails on a break, and gets to the seal the manifest
      names. */
  lemma ChainReads(st: State, r: Reading)
    requires GuardedlyReached(st) && Reads(st.store, st.head, 0, r)
    ensures r.Read? && st.head <= r.last
  {
    ReachedIsSound(st);
    HeadIsLinked(st);
    ReadsWhatIsLinked(st.store, st.head, r, st.head);
  }

  lemma AckedIsLinked(st: State, l: nat, n: nat)
    requires Inv(st) && SealsLink(st.store) && (l, n) in st.acked
    ensures Linked(st.store, n)
  {
    LineKnown(st, l);
    var line := st.lines[l];
    forall k | line.sealed < k <= n
      ensures k in st.store && st.store[k] == WindowOf(l, line, k)
    {
      AckedIsThere(st.store, st.lines, st.acked, l, n, k);
    }
    RunIsLinked(st.store, l, line, n);
  }

  /** Recovery reads everything any line acknowledged. */
  lemma AckedIsRead(st: State, l: nat, n: nat, r: Reading)
    requires GuardedlyReached(st) && (l, n) in st.acked && Reads(st.store, st.head, 0, r)
    ensures r.Read? && n <= r.last
  {
    ReachedIsSound(st);
    AckedIsLinked(st, l, n);
    HeadIsLinked(st);
    ReadsWhatIsLinked(st.store, st.head, r, n);
  }

  /** The state after a takeover puts its seal and swaps the manifest at once. */
  function SealedAndSwapped(st: State, t: nat, tails: nat -> nat): State
    requires TakerOf(st, t).Found? && TakerOf(st, t).head + 1 !in st.store
  {
    Next(Next(st, PutSeal(t)), Swap(t, tails))
  }

  /** After a run that kept the guard, a takeover that seals and swaps leaves
      recovery reaching its seal if and only if it sealed what looks as if it may
      be. */
  lemma TakeoverReadsIff(st: State, t: nat, tails: nat -> nat, r: Reading)
    requires GuardedlyReached(st) && TakerOf(st, t).Found? && TakerOf(st, t).version == st.version
    requires TakerOf(st, t).head + 1 !in st.store
    requires Reads(SealedAndSwapped(st, t, tails).store, SealedAndSwapped(st, t, tails).head, 0, r)
    ensures r.Read? && SealedAndSwapped(st, t, tails).head <= r.last <==>
            LooksSealable(st.store, st.head, TakerOf(st, t).head, TakerOf(st, t).prev)
  {
    SwappedIs(st, t, tails);
    var next := SealedAndSwapped(st, t, tails);
    ReadsToTheHeadIff(next.store, next.head, r);
    ReachedGuardIsExact(st, TakerOf(st, t).head, TakerOf(st, t).prev);
  }

  lemma SwappedIs(st: State, t: nat, tails: nat -> nat)
    requires TakerOf(st, t).Found? && TakerOf(st, t).version == st.version && TakerOf(st, t).head + 1 !in st.store
    ensures var at := TakerOf(st, t).head + 1;
            && SealedAndSwapped(st, t, tails).head == at
            && SealedAndSwapped(st, t, tails).store == st.store[at := Seal(TakerOf(st, t).prev)]
  {
  }

  lemma ReachedGuardIsExact(st: State, at: nat, prev: Digest)
    requires GuardedlyReached(st) && at + 1 !in st.store
    ensures Linked(st.store[at + 1 := Seal(prev)], at + 1) <==> LooksSealable(st.store, st.head, at, prev)
  {
    ReachedIsSound(st);
    GuardIsExact(st, at, prev);
  }

  // A break that has been sealed over stays.

  /** What a step of a run that deletes only as the owner leaves alone. */
  ghost predicate Above(st: State, next: State) {
    && st.head <= next.head
    && forall k :: k in st.store && k <= st.head ==> k in next.store && next.store[k] == st.store[k]
  }

  lemma SwapStaysAbove(st: State, t: nat, tails: nat -> nat)
    requires TakerOf(st, t).Sealed? && TakerIsRight(st.store, st.version, st.head, TakerOf(st, t))
    ensures Above(st, Next(st, Swap(t, tails)))
  {
  }

  lemma AddingStaysAbove(st: State, a: Action)
    requires Enabled(st, a) && (LeavesTheStore(a) || a.PutSeal? || a.Land? || a.Reput?) && !a.Swap?
    ensures Above(st, Next(st, a))
  {
  }

  lemma DeletingStaysAbove(st: State, a: Action)
    requires Enabled(st, a) && (a.Delete? || a.Clear?) && IsLitter(st.store, st.version, st.head, Gone(st, a))
    ensures Above(st, Next(st, a))
  {
  }

  lemma StepsStayAbove(st: State, a: Action)
    requires Inv(st) && Enabled(st, a) && Careful(st, a)
    ensures Above(st, Next(st, a))
  {
    if a.Swap? {
      TakerKnown(st, a.taker);
      SwapStaysAbove(st, a.taker, a.tails);
    } else if a.Delete? || a.Clear? {
      DeletedIsLitter(st, a);
      DeletingStaysAbove(st, a);
    } else {
      AddingStaysAbove(st, a);
    }
  }

  ghost predicate IsBrokenAt(st: State, at: nat) {
    0 < at <= st.head && at in st.store && !Links(st.store, at) && Linked(st.store, at - 1)
  }

  lemma AboveKeepsBreaks(st: State, next: State, at: nat)
    requires Above(st, next) && IsBrokenAt(st, at) && 0 !in st.store && 0 !in next.store
    ensures IsBrokenAt(next, at)
  {
    forall k | 0 < k < at
      ensures Links(next.store, k)
    {
      assert Links(st.store, k);
      assert k > 1 ==> Links(st.store, k - 1);
    }
    assert at > 1 ==> Links(st.store, at - 1);
  }

  lemma BreakStays(st: State, a: Action, at: nat)
    requires Inv(st) && IsBrokenAt(st, at) && Enabled(st, a) && Careful(st, a)
    ensures Inv(Next(st, a)) && IsBrokenAt(Next(st, a), at)
  {
    StepKeeps(st, a);
    StepsStayAbove(st, a);
    AboveKeepsBreaks(st, Next(st, a), at);
  }

  /** Once recovery fails on a break, it fails on that break for good: no window,
      takeover or sweep to come repairs it. */
  lemma BrokenForGood(st: State, at: nat, run: seq<Action>, end: State, r: Reading)
    requires CarefullyReached(st) && Reads(st.store, st.head, 0, Broken(at))
    requires Runs.After(Carefully, st, run) == Some(end) && Reads(end.store, end.head, 0, r)
    ensures r == Broken(at)
  {
    ReachedIsRight(st);
    forall s, a | (Inv(s) && IsBrokenAt(s, at)) && Carefully(s, a).Some?
      ensures Inv(Carefully(s, a).value) && IsBrokenAt(Carefully(s, a).value, at)
    {
      BreakStays(s, a, at);
    }
    Runs.Always(Carefully, s => Inv(s) && IsBrokenAt(s, at), st, run);
    BrokenIsBroken(end.store, end.head, r, at);
  }

  // How far past a hole anything stands.

  /** A window goes out only once every window of its line more than the limit
      before it has landed. */
  ghost predicate IsAdmitted(line: Line, n: nat) {
    forall m :: line.sealed < m && m + MAX_INFLIGHT < n ==> HasLanded(line, m)
  }

  ghost predicate AreAdmitted(lines: map<nat, Line>) {
    forall l, n: nat :: l in lines && n in lines[l].puts ==> IsAdmitted(lines[l], n)
  }

  ghost predicate Admits(st: State, a: Action) {
    a.Dispatch? && a.line in st.lines && a.line in st.cursors ==> IsAdmitted(st.lines[a.line], st.cursors[a.line].next)
  }

  /** Windows that have landed stay so, and only a dispatch makes one more. */
  ghost predicate LinesGoOn(lines: map<nat, Line>, lines': map<nat, Line>) {
    forall l, n: nat :: l in lines' && n in lines'[l].puts ==>
      l in lines && n in lines[l].puts && lines[l].sealed == lines'[l].sealed
      && forall m :: HasLanded(lines[l], m) ==> HasLanded(lines'[l], m)
  }

  lemma AdmittedGoOn(lines: map<nat, Line>, lines': map<nat, Line>)
    requires AreAdmitted(lines) && LinesGoOn(lines, lines')
    ensures AreAdmitted(lines')
  {
    forall l, n: nat | l in lines' && n in lines'[l].puts
      ensures IsAdmitted(lines'[l], n)
    {
      assert IsAdmitted(lines[l], n);
    }
  }

  lemma PutsGoOn(lines: map<nat, Line>, l: nat, n: nat, p: Put)
    requires AreAdmitted(lines) && l in lines && (n in lines[l].puts || IsAdmitted(lines[l], n))
    requires HasLanded(lines[l], n) ==> p.Landed?
    ensures AreAdmitted(PutTo(lines, l, n, p))
  {
    var lines' := PutTo(lines, l, n, p);
    assert forall m :: HasLanded(lines[l], m) ==> HasLanded(lines'[l], m);
    forall k, j: nat | k in lines' && j in lines'[k].puts
      ensures IsAdmitted(lines'[k], j)
    {
      assert IsAdmitted(lines[k], j);
    }
  }

  lemma DispatchAdmits(st: State, l: nat)
    requires AreAdmitted(st.lines) && Enabled(st, Dispatch(l)) && Admits(st, Dispatch(l))
    requires CursorsAreRight(st.store, st.version, st.lines, st.cursors)
    ensures AreAdmitted(Next(st, Dispatch(l)).lines)
  {
    assert CursorIsRight(st.store, st.version, l, st.lines[l], st.cursors[l]);
    PutsGoOn(st.lines, l, st.cursors[l].next, Flying);
  }

  lemma PutStepAdmits(st: State, a: Action)
    requires AreAdmitted(st.lines) && Enabled(st, a) && (a.Land? || a.Look? || a.Check? || a.Clear? || a.Reput?)
    ensures AreAdmitted(Next(st, a).lines)
  {
    var p := Next(st, a).lines[a.line].puts[a.at];
    assert Next(st, a).lines == PutTo(st.lines, a.line, a.at, p);
    PutsGoOn(st.lines, a.line, a.at, p);
  }

  lemma SwapAdmits(st: State, a: Action)
    requires AreAdmitted(st.lines) && Enabled(st, a) && a.Swap?
    ensures AreAdmitted(Next(st, a).lines)
  {
    AdmittedGoOn(st.lines, Next(st, a).lines);
  }

  lemma StepAdmits(st: State, a: Action)
    requires AreAdmitted(st.lines) && Enabled(st, a) && Admits(st, a)
    requires CursorsAreRight(st.store, st.version, st.lines, st.cursors)
    ensures AreAdmitted(Next(st, a).lines)
  {
    if a.Dispatch? {
      DispatchAdmits(st, a.line);
    } else if a.Swap? {
      SwapAdmits(st, a);
    } else if a.Land? || a.Look? || a.Check? || a.Clear? || a.Reput? {
      PutStepAdmits(st, a);
    } else {
      OtherStepsLeaveTheLines(st, a);
    }
  }

  lemma OtherStepsLeaveTheLines(st: State, a: Action)
    requires Enabled(st, a) && !a.Dispatch? && !a.Swap?
    requires !(a.Land? || a.Look? || a.Check? || a.Clear? || a.Reput?)
    ensures Next(st, a).lines == st.lines
  {
  }

  /** A guarded step of lines that keep to their limit. */
  ghost function Admittedly(st: State, a: Action): Option<State> {
    if Guarded(st, a) && Admits(st, a) then Step(st, a) else None
  }

  ghost predicate AdmittedlyReached(st: State) {
    exists run :: Runs.After(Admittedly, START, run) == Some(st)
  }

  ghost predicate IsNear(st: State) {
    IsSound(st) && AreAdmitted(st.lines)
  }

  lemma NearStep(st: State, a: Action)
    requires IsNear(st) && Admittedly(st, a).Some?
    ensures IsNear(Admittedly(st, a).value)
  {
    StepKeeps(st, a);
    StepKeepsSeals(st, a);
    StepAdmits(st, a);
  }

  lemma ReachedIsNear(st: State)
    requires AdmittedlyReached(st)
    ensures IsNear(st)
  {
    var run :| Runs.After(Admittedly, START, run) == Some(st);
    forall s, a | IsNear(s) && Admittedly(s, a).Some?
      ensures IsNear(Admittedly(s, a).value)
    {
      NearStep(s, a);
    }
    Runs.Always(Admittedly, IsNear, START, run);
  }

  lemma LandedThroughout(store: Store, line: Line, to: nat)
    requires line.sealed < to && forall m :: line.sealed < m <= to ==> HasLanded(line, m)
    ensures HasLanded(line, to) && !Fenced(store, line, to - 1) && !Fenced(store, line, to)
  {
    forall j | line.sealed < j <= to
      ensures !IsFence(store, line, j)
    {
      assert HasLanded(line, j);
    }
  }

  /** The line of a window past a hole by more than the limit has landed one in the
      hole, and is not fenced below. */
  lemma WindowIsNear(st: State, hole: nat, n: nat)
    requires Inv(st) && AreAdmitted(st.lines)
    requires st.head < hole && hole !in st.store && HoldsWindow(st.store, n)
    ensures n <= hole + MAX_INFLIGHT
  {
    var l := st.store[n].line;
    var line := st.lines[l];
    assert IsOf(st.store, st.lines, n);
    LineKnown(st, l);
    LineKnown(st, st.version);
    if hole + MAX_INFLIGHT < n {
      assert IsAdmitted(line, n);
      LandedThroughout(st.store, line, hole);
    }
  }

  lemma SealIsNear(st: State, hole: nat, n: nat)
    requires IsSound(st) && st.head < hole && hole !in st.store && HoldsSeal(st.store, n)
    ensures n < hole
  {
    assert IsSolid(st.store, st.version, st.head, n);
    assert IsOwnersRun(st.store, st.version, st.head, hole) ==> IsLinesWindow(st.store, st.version, hole);
  }

  /** Whichever lines left it and whatever they had in flight, nothing stands more
      than the limit past the first position above the manifest's head that nothing
      stands at. */
  lemma NothingIsFar(st: State, hole: nat)
    requires AdmittedlyReached(st) && st.head < hole && hole !in st.store
    requires forall n :: st.head < n < hole ==> n in st.store
    ensures IsHole(n => n in st.store, st.head, hole) && forall n :: n in st.store ==> n <= hole + 64
  {
    ReachedIsNear(st);
    forall n | n in st.store
      ensures n <= hole + MAX_INFLIGHT
    {
      if HoldsWindow(st.store, n) {
        WindowIsNear(st, hole, n);
      } else {
        SealIsNear(st, hole, n);
      }
    }
  }

  /** So the search over what stands there, with nothing moving, ends right before
      the first hole. */
  method HeadOf(st: State, ghost hole: nat) returns (head: nat)
    requires AdmittedlyReached(st) && st.head < hole && hole !in st.store
    requires forall n :: st.head < n < hole ==> n in st.store
    ensures head == hole - 1 && st.head <= head && (head == 0 || head in st.store)
  {
    NothingIsFar(st, hole);
    head := Head(n => n in st.store, st.head, hole);
    ReachedIsNear(st);
    if st.version > 0 {
      LineKnown(st, st.version);
    }
  }
}
