/** The write ahead log of a shard: segments by sequence number, each naming the
    digest of the one before it, and the reading that recovery is.

    A digest is of a window's tenants and how far it took each, so a window sent
    again after a failover has the digest it had before; a seal has no tenants,
    and every seal has the same. */
module Chain {
  import opened Wrappers

  datatype Digest = Nothing | Window(tails: nat)

  /** A landing segment is a window of the line that wrote it; a seal is where a
      takeover fenced. */
  datatype Segment = Seal(prev: Digest) | Landing(line: nat, tails: nat, prev: Digest)

  type Store = map<nat, Segment>

  function DigestAt(store: Store, n: nat): Digest {
    if n in store && store[n].Landing? then Window(store[n].tails) else Nothing
  }

  /** The segment is there and names the digest of the one before it. */
  predicate Links(store: Store, n: nat)
    requires n > 0
  {
    n in store && store[n].prev == DigestAt(store, n - 1)
  }

  /** Every segment after one position and up to another links. */
  ghost predicate LinkedFrom(store: Store, from: nat, to: nat) {
    forall k :: from < k <= to ==> Links(store, k)
  }

  ghost predicate Linked(store: Store, n: nat) {
    LinkedFrom(store, 0, n)
  }

  /** What a read comes to: the last segment that links, or the position of a
      break below what an owner has sealed over. */
  datatype Reading = Read(last: nat) | Broken(at: nat)

  /** A segment that links elsewhere ends the chain, unless an owner has sealed
      at or past it. */
  ghost predicate Reads(store: Store, head: nat, from: nat, r: Reading) {
    match r
    case Read(last) =>
      && from <= last && LinkedFrom(store, from, last) && !Links(store, last + 1)
      && (last + 1 in store ==> head < last + 1)
    case Broken(at) =>
      && from < at <= head && LinkedFrom(store, from, at - 1) && at in store && !Links(store, at)
  }

  /** The recovery read from a position on. */
  method Walk(store: Store, head: nat, from: nat) returns (r: Reading)
    ensures Reads(store, head, from, r)
  {
    var next, prev := from + 1, DigestAt(store, from);
    ghost var left := store.Keys;
    while next in store
      invariant from < next && prev == DigestAt(store, next - 1) && LinkedFrom(store, from, next - 1)
      invariant forall k :: k in store && k >= next ==> k in left
      decreases |left|
    {
      if store[next].prev != prev {
        if next <= head {
          return Broken(next);
        }
        break;
      }
      prev := DigestAt(store, next);
      left := left - {next};
      next := next + 1;
    }
    return Read(next - 1);
  }

  /** A read from the start gets at least as far as the chain is linked, and
      does not fail where an owner sealed over nothing but linked segments. */
  lemma ReadsWhatIsLinked(store: Store, head: nat, r: Reading, n: nat)
    requires Reads(store, head, 0, r) && Linked(store, head) && Linked(store, n)
    ensures r.Read? && n <= r.last
  {
  }

  /** A break at or below the last seal is an error for every reader from then
      on, wherever past it the shard goes. */
  lemma BrokenIsBroken(store: Store, head: nat, r: Reading, at: nat)
    requires 0 < at <= head && at in store && !Links(store, at) && Linked(store, at - 1)
    requires Reads(store, head, 0, r)
    ensures r == Broken(at)
  {
  }

  /** Recovery gets to the head the manifest names exactly when the chain is
      linked that far. */
  lemma ReadsToTheHeadIff(store: Store, head: nat, r: Reading)
    requires Reads(store, head, 0, r)
    ensures r.Read? && head <= r.last <==> Linked(store, head)
  {
    if Linked(store, head) {
      ReadsWhatIsLinked(store, head, r, head);
    }
  }
}
