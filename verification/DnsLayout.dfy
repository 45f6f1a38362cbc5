/** Whole responses: what one looks like, and that reading one gives back the
    records it was built from.

    `Item` is one answer as a resolver builds it. A built response is the
    header, one question, and the items one after the other; the reader finds
    in it exactly the records of the asked type and of the internet class, in
    the order they were written. */
module DnsLayout {
  import opened Wrappers
  import opened DnsNames
  import opened DnsWriting
  import opened DnsMessage
  import opened Walks

  // Numbers on the wire.

  type u16 = n: int | 0 <= n < 0x1_0000

  type u32 = n: int | 0 <= n < 0x1_0000_0000

  function U16(n: u16): (w: seq<byte>)
    ensures |w| == 2
  {
    [n / 256, n % 256]
  }

  function U32(n: u32): (w: seq<byte>)
    ensures |w| == 4
  {
    U16(n / 65536) + U16(n % 65536)
  }

  lemma U16ReadsBack(p: seq<byte>, at: nat, n: u16)
    requires At(p, at, U16(n))
    ensures PairAt(p, at) == Some(n)
  {
    assert p[at..at + 2] == [p[at], p[at + 1]];
  }

  lemma U32ReadsBack(p: seq<byte>, at: nat, n: u32)
    requires At(p, at, U32(n))
    ensures FourAt(p, at) == Some(n)
  {
    AtSplits(p, at, U16(n / 65536), U16(n % 65536));
    U16ReadsBack(p, at, n / 65536);
    U16ReadsBack(p, at + 2, n % 65536);
  }

  /** Numbers of four bytes, one after the other. */
  function Fours(ns: seq<u32>): seq<byte> {
    if ns == [] then [] else U32(ns[0]) + Fours(ns[1..])
  }

  lemma {:induction false} FoursReadBack(p: seq<byte>, at: nat, ns: seq<u32>)
    requires At(p, at, Fours(ns))
    ensures forall i :: 0 <= i < |ns| ==> FourAt(p, at + 4 * i) == Some(ns[i])
    decreases |ns|
  {
    if ns != [] {
      AtSplits(p, at, U32(ns[0]), Fours(ns[1..]));
      U32ReadsBack(p, at, ns[0]);
      FoursReadBack(p, at + 4, ns[1..]);
      forall i | 0 < i < |ns|
        ensures FourAt(p, at + 4 * i) == Some(ns[i])
      {
        assert at + 4 + 4 * (i - 1) == at + 4 * i;
        assert FourAt(p, at + 4 + 4 * (i - 1)) == Some(ns[1..][i - 1]);
      }
    }
  }

  lemma NameReadsBack(p: seq<byte>, at: nat, labels: seq<Label>)
    requires AreLabels(labels) && At(p, at, Wire(labels))
    ensures ReadAt(p, at, at) == Some(Plainly(labels, End))
    ensures LabelsOf(Plainly(labels, End)) == labels
    ensures Extent(Plainly(labels, End)) == |Wire(labels)|
  {
    WireSpells(p, at, labels);
    LabelsDescend(labels, End, at);
    ReadsAs(p, at, Plainly(labels, End));
  }

  // Records on the wire.

  predicate FitsTimers(t: Timers) {
    && t.serial < 0x1_0000_0000 && t.refresh < 0x1_0000_0000 && t.retry < 0x1_0000_0000
    && t.expire < 0x1_0000_0000 && t.minimum < 0x1_0000_0000
  }

  /** The records that can be written as data of this type. */
  predicate Fits(r: Record, kind: nat) {
    match r
    case Address(octets) => (kind == A && |octets| == 4) || (kind == AAAA && |octets| == 16)
    case Alias(name) => (kind == CNAME || kind == NS || kind == PTR) && AreLabels(name)
    case Mail(preference, exchange) => kind == MX && preference < 0x1_0000 && AreLabels(exchange)
    case Text(strings) => kind == TXT && forall i :: 0 <= i < |strings| ==> |strings[i]| < 256
    case Service(priority, weight, port, target) =>
      kind == SRV && priority < 0x1_0000 && weight < 0x1_0000 && port < 0x1_0000 && AreLabels(target)
    case Authority(mname, rname, timers) =>
      kind == SOA && AreLabels(mname) && AreLabels(rname) && FitsTimers(timers)
    case Certificate(_, tag, _) => kind == CAA && |tag| < 256
  }

  function StringsWire(strings: seq<seq<byte>>): seq<byte>
    requires forall i :: 0 <= i < |strings| ==> |strings[i]| < 256
  {
    if strings == [] then [] else [|strings[0]| as byte] + strings[0] + StringsWire(strings[1..])
  }

  function TimersWire(t: Timers): seq<byte>
    requires FitsTimers(t)
  {
    Fours([t.serial, t.refresh, t.retry, t.expire, t.minimum])
  }

  function Data(r: Record, kind: nat): seq<byte>
    requires Fits(r, kind)
  {
    match r
    case Address(octets) => octets
    case Alias(name) => Wire(name)
    case Mail(preference, exchange) => U16(preference) + Wire(exchange)
    case Text(strings) => StringsWire(strings)
    case Service(priority, weight, port, target) =>
      U16(priority) + (U16(weight) + (U16(port) + Wire(target)))
    case Authority(mname, rname, timers) => Wire(mname) + (Wire(rname) + TimersWire(timers))
    case Certificate(critical, tag, content) =>
      [if critical then 128 else 0, |tag| as byte] + tag + content
  }

  lemma {:induction false} StringsReadBack(rdata: seq<byte>, at: nat, strings: seq<seq<byte>>)
    requires forall i :: 0 <= i < |strings| ==> |strings[i]| < 256
    requires at <= |rdata| && rdata[at..] == StringsWire(strings)
    ensures Strings(rdata, at) == Some(strings)
    decreases |strings|
  {
    if strings != [] {
      var wire := StringsWire(strings);
      var size := |strings[0]|;
      var next := at + 1 + size;
      var tail := rdata[at..];
      assert rdata[at] == tail[0] == size;
      assert wire[1..1 + size] == strings[0];
      assert rdata[at + 1..next] == tail[1..1 + size];
      assert wire[1 + size..] == StringsWire(strings[1..]);
      assert rdata[next..] == tail[1 + size..];
      StringsReadBack(rdata, next, strings[1..]);
      assert strings == [strings[0]] + strings[1..];
    }
  }

  lemma TimersReadBack(p: seq<byte>, at: nat, t: Timers)
    requires FitsTimers(t) && At(p, at, TimersWire(t))
    ensures TimersAt(p, at) == Some(t)
  {
    var ns: seq<u32> := [t.serial, t.refresh, t.retry, t.expire, t.minimum];
    FoursReadBack(p, at, ns);
    assert FourAt(p, at + 4 * 0) == Some(ns[0]) && FourAt(p, at + 4 * 1) == Some(ns[1]);
    assert FourAt(p, at + 4 * 2) == Some(ns[2]) && FourAt(p, at + 4 * 3) == Some(ns[3]);
    assert FourAt(p, at + 4 * 4) == Some(ns[4]);
  }

  lemma AuthorityParts(p: seq<byte>, at: nat, m: seq<Label>, r: seq<Label>, t: Timers)
    requires AreLabels(m) && AreLabels(r) && FitsTimers(t)
    requires At(p, at, Wire(m) + (Wire(r) + TimersWire(t)))
    ensures At(p, at, Wire(m))
    ensures At(p, at + |Wire(m)|, Wire(r))
    ensures At(p, at + |Wire(m)| + |Wire(r)|, TimersWire(t))
  {
    AtSplits(p, at, Wire(m), Wire(r) + TimersWire(t));
    AtSplits(p, at + |Wire(m)|, Wire(r), TimersWire(t));
  }

  lemma AuthorityFrom(p: seq<byte>, at: nat, m: Spelling, r: Spelling, t: Timers)
    requires ReadAt(p, at, at) == Some(m)
    requires ReadAt(p, at + Extent(m), at + Extent(m)) == Some(r)
    requires TimersAt(p, at + Extent(m) + Extent(r)) == Some(t)
    ensures AuthorityAt(p, at) == Some(Authority(LabelsOf(m), LabelsOf(r), t))
  {
  }

  /** Two names one after the other. */
  lemma NamesReadBack(p: seq<byte>, at: nat, m: seq<Label>, r: seq<Label>) returns (first: Spelling, second: Spelling)
    requires AreLabels(m) && AreLabels(r)
    requires At(p, at, Wire(m)) && At(p, at + |Wire(m)|, Wire(r))
    ensures ReadAt(p, at, at) == Some(first) && LabelsOf(first) == m
    ensures ReadAt(p, at + Extent(first), at + Extent(first)) == Some(second) && LabelsOf(second) == r
    ensures Extent(first) == |Wire(m)| && Extent(second) == |Wire(r)|
  {
    first, second := Plainly(m, End), Plainly(r, End);
    NameReadsBack(p, at, m);
    NameReadsBack(p, at + |Wire(m)|, r);
  }

  lemma TimersAfterNames(p: seq<byte>, at: nat, m: seq<Label>, r: seq<Label>, t: Timers)
    requires AreLabels(m) && AreLabels(r) && FitsTimers(t)
    requires At(p, at, Wire(m) + (Wire(r) + TimersWire(t)))
    ensures TimersAt(p, at + |Wire(m)| + |Wire(r)|) == Some(t)
  {
    AuthorityParts(p, at, m, r, t);
    TimersReadBack(p, at + |Wire(m)| + |Wire(r)|, t);
  }

  lemma NamesBeforeTimers(p: seq<byte>, at: nat, m: seq<Label>, r: seq<Label>, t: Timers)
    returns (first: Spelling, second: Spelling)
    requires AreLabels(m) && AreLabels(r) && FitsTimers(t)
    requires At(p, at, Wire(m) + (Wire(r) + TimersWire(t)))
    ensures ReadAt(p, at, at) == Some(first) && LabelsOf(first) == m
    ensures ReadAt(p, at + Extent(first), at + Extent(first)) == Some(second) && LabelsOf(second) == r
    ensures Extent(first) == |Wire(m)| && Extent(second) == |Wire(r)|
  {
    AuthorityParts(p, at, m, r, t);
    first, second := NamesReadBack(p, at, m, r);
  }

  lemma AuthorityReadsBack(p: seq<byte>, at: nat, m: seq<Label>, r: seq<Label>, t: Timers)
    requires AreLabels(m) && AreLabels(r) && FitsTimers(t)
    requires At(p, at, Wire(m) + (Wire(r) + TimersWire(t)))
    ensures AuthorityAt(p, at) == Some(Authority(m, r, t))
  {
    TimersAfterNames(p, at, m, r, t);
    var first, second := NamesBeforeTimers(p, at, m, r, t);
    AuthorityFrom(p, at, first, second, t);
  }

  lemma ServiceReadsBack(p: seq<byte>, at: nat, r: Record)
    requires r.Service? && Fits(r, SRV) && At(p, at, Data(r, SRV))
    ensures Decoded(p, at, Data(r, SRV), SRV) == Some(r)
  {
    AtSplits(p, at, U16(r.priority), U16(r.weight) + (U16(r.port) + Wire(r.target)));
    AtSplits(p, at + 2, U16(r.weight), U16(r.port) + Wire(r.target));
    AtSplits(p, at + 4, U16(r.port), Wire(r.target));
    U16ReadsBack(p, at, r.priority);
    U16ReadsBack(p, at + 2, r.weight);
    U16ReadsBack(p, at + 4, r.port);
    NameReadsBack(p, at + 6, r.target);
  }

  lemma CertificateReadsBack(p: seq<byte>, at: nat, r: Record)
    requires r.Certificate? && Fits(r, CAA)
    ensures Decoded(p, at, Data(r, CAA), CAA) == Some(r)
  {
    var rdata := Data(r, CAA);
    var n := |r.tag|;
    assert rdata[1] == n;
    assert rdata[2..2 + n] == r.tag;
    assert rdata[2 + n..] == r.content;
  }

  /** Every record reads back from its own bytes, wherever in a packet they
      stand and whatever follows them. */
  lemma RecordReadsBack(p: seq<byte>, at: nat, r: Record, kind: nat)
    requires Fits(r, kind) && At(p, at, Data(r, kind))
    ensures Decoded(p, at, Data(r, kind), kind) == Some(r)
  {
    match r {
      case Address(_) =>
      case Alias(name) => NameReadsBack(p, at, name);
      case Mail(preference, exchange) =>
        AtSplits(p, at, U16(preference), Wire(exchange));
        U16ReadsBack(p, at, preference);
        NameReadsBack(p, at + 2, exchange);
      case Text(strings) =>
        assert StringsWire(strings)[0..] == StringsWire(strings);
        StringsReadBack(StringsWire(strings), 0, strings);
      case Service(_, _, _, _) => ServiceReadsBack(p, at, r);
      case Authority(mname, rname, timers) => AuthorityReadsBack(p, at, mname, rname, timers);
      case Certificate(_, _, _) => CertificateReadsBack(p, at, r);
    }
  }
}
