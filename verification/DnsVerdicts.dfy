/** Which packets answer a question, which records they hold, and how every other
    packet fails, said of the bytes.

    Types, classes and codes are written here as the numbers they are on the wire,
    by sections 3.2.2, 3.2.4 and 4.1.1 of RFC 1035, RFC 3596, RFC 2782 and
    RFC 8659. */
module DnsVerdicts {
  import opened Wrappers
  import opened DnsNames
  import opened DnsWriting
  import opened DnsMessage
  import opened DnsLayout
  import opened DnsResponse
  import opened Walks

  // Records.

  /** A name is spelled here, compressed or not. */
  ghost predicate NamedAt(p: seq<byte>, at: nat, name: seq<Label>) {
    exists s :: Spelled(p, at, s) && Descending(s, at) && LabelsOf(s) == name
  }

  /** Two digits of base 256. */
  function Twice(high: nat, low: nat): nat {
    high * 256 + low
  }

  ghost predicate PairIs(p: seq<byte>, at: nat, n: nat) {
    at + 2 <= |p| && n == Twice(p[at], p[at + 1])
  }

  ghost predicate FourIs(p: seq<byte>, at: nat, n: nat) {
    at + 4 <= |p| && n == Twice(Twice(Twice(p[at], p[at + 1]), p[at + 2]), p[at + 3])
  }

  ghost predicate TimersAre(p: seq<byte>, at: nat, t: Timers) {
    && FourIs(p, at, t.serial) && FourIs(p, at + 4, t.refresh) && FourIs(p, at + 8, t.retry)
    && FourIs(p, at + 12, t.expire) && FourIs(p, at + 16, t.minimum)
  }

  ghost predicate AuthorityIs(p: seq<byte>, at: nat, mname: seq<Label>, rname: seq<Label>, t: Timers) {
    exists m, r :: AuthorityBy(p, at, m, r, t) && LabelsOf(m) == mname && LabelsOf(r) == rname
  }

  /** The strings are the data, each behind its length. */
  ghost predicate StringsAre(rdata: seq<byte>, strings: seq<seq<byte>>) {
    (forall i :: 0 <= i < |strings| ==> |strings[i]| < 256) && rdata == StringsWire(strings)
  }

  ghost predicate CertificateIs(rdata: seq<byte>, critical: bool, tag: seq<byte>, content: seq<byte>) {
    && 2 <= |rdata| && rdata[1] == |tag| && rdata[2..] == tag + content
    && (critical <==> rdata[0] >= 128)
  }

  /** What data of a type says. */
  ghost predicate SaysRecord(p: seq<byte>, at: nat, rdata: seq<byte>, kind: nat, r: Record) {
    match r
    case Address(octets) => octets == rdata && ((kind == 1 && |rdata| == 4) || (kind == 28 && |rdata| == 16))
    case Alias(name) => (kind == 2 || kind == 5 || kind == 12) && NamedAt(p, at, name)
    case Mail(preference, exchange) => kind == 15 && PairIs(p, at, preference) && NamedAt(p, at + 2, exchange)
    case Text(strings) => kind == 16 && StringsAre(rdata, strings)
    case Service(priority, weight, port, target) =>
      && kind == 33 && PairIs(p, at, priority) && PairIs(p, at + 2, weight) && PairIs(p, at + 4, port)
      && NamedAt(p, at + 6, target)
    case Authority(mname, rname, timers) => kind == 6 && AuthorityIs(p, at, mname, rname, timers)
    case Certificate(critical, tag, content) => kind == 257 && CertificateIs(rdata, critical, tag, content)
  }

  lemma NamedIff(p: seq<byte>, at: nat, name: seq<Label>)
    ensures NameIn(p, at) == Some(name) <==> NamedAt(p, at, name)
  {
    if NameIn(p, at) == Some(name) {
      ReadIsSound(p, at, at);
    }
    if s :| Spelled(p, at, s) && Descending(s, at) && LabelsOf(s) == name {
      ReadIsComplete(p, at, at, s);
    }
  }

  lemma PairIff(p: seq<byte>, at: nat, n: nat)
    ensures PairAt(p, at) == Some(n) <==> PairIs(p, at, n)
  {
  }

  lemma FourIff(p: seq<byte>, at: nat, n: nat)
    ensures FourAt(p, at) == Some(n) <==> FourIs(p, at, n)
  {
  }

  lemma TimersIff(p: seq<byte>, at: nat, t: Timers)
    ensures TimersAt(p, at) == Some(t) <==> TimersAre(p, at, t)
  {
    FourIff(p, at, t.serial);
    FourIff(p, at + 4, t.refresh);
    FourIff(p, at + 8, t.retry);
    FourIff(p, at + 12, t.expire);
    FourIff(p, at + 16, t.minimum);
  }

  ghost predicate AuthorityBy(p: seq<byte>, at: nat, m: Spelling, r: Spelling, t: Timers) {
    && Spelled(p, at, m) && Descending(m, at)
    && Spelled(p, at + Extent(m), r) && Descending(r, at + Extent(m))
    && TimersAre(p, at + Extent(m) + Extent(r), t)
  }

  lemma AuthorityIsRead(p: seq<byte>, at: nat, m: Spelling, r: Spelling, t: Timers)
    requires AuthorityBy(p, at, m, r, t)
    ensures AuthorityAt(p, at) == Some(Authority(LabelsOf(m), LabelsOf(r), t))
  {
    ReadIsComplete(p, at, at, m);
    ReadIsComplete(p, at + Extent(m), at + Extent(m), r);
    TimersIff(p, at + Extent(m) + Extent(r), t);
    AuthorityFrom(p, at, m, r, t);
  }

  lemma AuthorityHas(p: seq<byte>, at: nat) returns (m: Spelling, r: Spelling, t: Timers)
    requires AuthorityAt(p, at).Some?
    ensures ReadAt(p, at, at) == Some(m) && ReadAt(p, at + Extent(m), at + Extent(m)) == Some(r)
    ensures TimersAt(p, at + Extent(m) + Extent(r)) == Some(t)
    ensures AuthorityAt(p, at) == Some(Authority(LabelsOf(m), LabelsOf(r), t))
  {
    m := ReadAt(p, at, at).value;
    r := ReadAt(p, at + Extent(m), at + Extent(m)).value;
    t := TimersAt(p, at + Extent(m) + Extent(r)).value;
  }

  lemma NameByRead(p: seq<byte>, at: nat, s: Spelling)
    requires ReadAt(p, at, at) == Some(s)
    ensures Spelled(p, at, s) && Descending(s, at)
  {
    ReadIsSound(p, at, at);
  }

  lemma ReadIsBy(p: seq<byte>, at: nat, m: Spelling, r: Spelling, t: Timers)
    requires ReadAt(p, at, at) == Some(m) && ReadAt(p, at + Extent(m), at + Extent(m)) == Some(r)
    requires TimersAt(p, at + Extent(m) + Extent(r)) == Some(t)
    ensures AuthorityBy(p, at, m, r, t)
  {
    assert Spelled(p, at, m) && Descending(m, at) by {
      NameByRead(p, at, m);
    }
    assert Spelled(p, at + Extent(m), r) && Descending(r, at + Extent(m)) by {
      NameByRead(p, at + Extent(m), r);
    }
    assert TimersAre(p, at + Extent(m) + Extent(r), t) by {
      TimersIff(p, at + Extent(m) + Extent(r), t);
    }
  }

  lemma AuthorityIff(p: seq<byte>, at: nat, mname: seq<Label>, rname: seq<Label>, t: Timers)
    ensures AuthorityAt(p, at) == Some(Authority(mname, rname, t)) <==> AuthorityIs(p, at, mname, rname, t)
  {
    if AuthorityAt(p, at) == Some(Authority(mname, rname, t)) {
      var m, r, t' := AuthorityHas(p, at);
      ReadIsBy(p, at, m, r, t');
    }
    if m, r :| AuthorityBy(p, at, m, r, t) && LabelsOf(m) == mname && LabelsOf(r) == rname {
      AuthorityIsRead(p, at, m, r, t);
    }
  }

  lemma {:induction false} StringsAreRead(rdata: seq<byte>, at: nat)
    requires at <= |rdata| && Strings(rdata, at).Some?
    ensures StringsAre(rdata[at..], Strings(rdata, at).value)
    decreases |rdata| - at
  {
    var strings := Strings(rdata, at).value;
    if at < |rdata| {
      var next := at + 1 + rdata[at];
      StringsAreRead(rdata, next);
      assert strings[1..] == Strings(rdata, next).value;
      assert rdata[at..] == [rdata[at]] + rdata[at + 1..next] + rdata[next..];
      forall i | 0 <= i < |strings|
        ensures |strings[i]| < 256
      {
        assert i > 0 ==> strings[i] == strings[1..][i - 1];
      }
    }
  }

  lemma StringsIff(rdata: seq<byte>, strings: seq<seq<byte>>)
    ensures Strings(rdata, 0) == Some(strings) <==> StringsAre(rdata, strings)
  {
    assert rdata[0..] == rdata;
    if Strings(rdata, 0) == Some(strings) {
      StringsAreRead(rdata, 0);
    }
    if StringsAre(rdata, strings) {
      StringsReadBack(rdata, 0, strings);
    }
  }

  lemma CertificateIff(rdata: seq<byte>, critical: bool, tag: seq<byte>, content: seq<byte>)
    ensures Decoded([], 0, rdata, CAA) == Some(Certificate(critical, tag, content))
       <==> CertificateIs(rdata, critical, tag, content)
  {
    if |rdata| >= 2 && 2 + rdata[1] <= |rdata| {
      var size := rdata[1];
      assert rdata[2..] == rdata[2..2 + size] + rdata[2 + size..];
      if rdata[2..] == tag + content && |tag| == size {
        assert rdata[2..][..size] == rdata[2..2 + size] && rdata[2..][size..] == rdata[2 + size..];
        assert (tag + content)[..size] == tag && (tag + content)[size..] == content;
      }
    } else if |rdata| >= 2 {
      assert rdata[2..] == tag + content ==> |tag| <= |rdata| - 2;
    }
  }

  lemma ServiceIff(p: seq<byte>, at: nat, rdata: seq<byte>, r: Record)
    requires r.Service?
    ensures Decoded(p, at, rdata, 33) == Some(r) <==> SaysRecord(p, at, rdata, 33, r)
  {
    PairIff(p, at, r.priority);
    PairIff(p, at + 2, r.weight);
    PairIff(p, at + 4, r.port);
    NamedIff(p, at + 6, r.target);
  }

  lemma MailIff(p: seq<byte>, at: nat, rdata: seq<byte>, r: Record)
    requires r.Mail?
    ensures Decoded(p, at, rdata, 15) == Some(r) <==> SaysRecord(p, at, rdata, 15, r)
  {
    PairIff(p, at, r.preference);
    NamedIff(p, at + 2, r.exchange);
  }

  lemma KindsAre(p: seq<byte>, at: nat, rdata: seq<byte>, kind: nat, r: Record)
    requires Decoded(p, at, rdata, kind) == Some(r) || SaysRecord(p, at, rdata, kind, r)
    ensures r.Address? ==> kind == 1 || kind == 28
    ensures r.Alias? ==> kind == 2 || kind == 5 || kind == 12
    ensures r.Mail? ==> kind == 15
    ensures r.Text? ==> kind == 16
    ensures r.Service? ==> kind == 33
    ensures r.Authority? ==> kind == 6
    ensures r.Certificate? ==> kind == 257
  {
  }

  /** A record is read out of data if and only if the data says it. */
  lemma DecodedIff(p: seq<byte>, at: nat, rdata: seq<byte>, kind: nat, r: Record)
    ensures Decoded(p, at, rdata, kind) == Some(r) <==> SaysRecord(p, at, rdata, kind, r)
  {
    if Decoded(p, at, rdata, kind) == Some(r) || SaysRecord(p, at, rdata, kind, r) {
      KindsAre(p, at, rdata, kind, r);
      match r
      case Address(_) =>
      case Alias(name) => NamedIff(p, at, name);
      case Mail(_, _) => MailIff(p, at, rdata, r);
      case Text(strings) => StringsIff(rdata, strings);
      case Service(_, _, _, _) => ServiceIff(p, at, rdata, r);
      case Authority(mname, rname, timers) => AuthorityIff(p, at, mname, rname, timers);
      case Certificate(critical, tag, content) => CertificateIff(rdata, critical, tag, content);
    }
  }

  // Questions.

  ghost predicate QuestionAt(p: seq<byte>, at: nat, name: Spelling) {
    Spelled(p, at, name) && Descending(name, at) && at + Extent(name) + 4 <= |p|
  }

  /** The questions stand from here to there, one after the other, each a name, a
      type and a class. */
  ghost predicate AreAsked(p: seq<byte>, at: nat, names: seq<Spelling>, end: nat)
    decreases |names|
  {
    if names == [] then at == end
    else QuestionAt(p, at, names[0]) && AreAsked(p, at + Extent(names[0]) + 4, names[1..], end)
  }

  lemma {:induction false} AskedIsPast(p: seq<byte>, at: nat, names: seq<Spelling>, end: nat)
    requires AreAsked(p, at, names, end)
    ensures PastQuestions(p, at, |names|) == Some(end)
    decreases |names|
  {
    if names != [] {
      ReadIsComplete(p, at, at, names[0]);
      AskedIsPast(p, at + Extent(names[0]) + 4, names[1..], end);
    }
  }

  lemma {:induction false} PastIsAsked(p: seq<byte>, at: nat, many: nat) returns (names: seq<Spelling>)
    requires PastQuestions(p, at, many).Some?
    ensures |names| == many && AreAsked(p, at, names, PastQuestions(p, at, many).value)
    decreases many
  {
    if many == 0 {
      names := [];
    } else {
      ReadIsSound(p, at, at);
      var name := ReadAt(p, at, at).value;
      var rest := PastIsAsked(p, at + Extent(name) + 4, many - 1);
      names := [name] + rest;
      assert names[1..] == rest;
    }
  }

  // The whole message.

  /** The bytes after the header are so many questions and so many answers. */
  ghost predicate IsBody(p: seq<byte>, names: seq<Spelling>, answers: seq<Answer>, offsets: seq<nat>) {
    && 12 <= |p|
    && |names| == Twice(p[4], p[5]) && |answers| == Twice(p[6], p[7])
    && LaidOut(p, answers, offsets) && AreAsked(p, 12, names, offsets[0])
  }

  ghost predicate HasBody(p: seq<byte>) {
    exists names, answers, offsets :: IsBody(p, names, answers, offsets)
  }

  /** The packet goes with the question: a whole header, and the same id. */
  predicate IsToQuestion(p: seq<byte>, question: seq<byte>) {
    12 <= |p| && 2 <= |question| && p[0] == question[0] && p[1] == question[1]
  }

  /** One record of the asked type and of the internet class. */
  ghost predicate Gives(p: seq<byte>, at: nat, a: Answer, asked: nat, r: Record) {
    a.kind == asked && a.class' == 1 && SaysRecord(p, at + Extent(a.owner) + 10, a.rdata, asked, r)
  }

  lemma ContributionIff(p: seq<byte>, at: nat, a: Answer, asked: nat)
    ensures |Contribution(p, RawOf(at, a), asked)| <= 1
    ensures forall r :: Contribution(p, RawOf(at, a), asked) == [r] <==> Gives(p, at, a, asked, r)
    ensures Contribution(p, RawOf(at, a), asked) == [] <==> forall r :: !Gives(p, at, a, asked, r)
  {
    var data := at + Extent(a.owner) + 10;
    forall r
      ensures Contribution(p, RawOf(at, a), asked) == [r] <==> Gives(p, at, a, asked, r)
    {
      DecodedIff(p, data, a.rdata, asked, r);
    }
    if Contribution(p, RawOf(at, a), asked) != [] {
      var r := Contribution(p, RawOf(at, a), asked)[0];
      assert Contribution(p, RawOf(at, a), asked) == [r];
      assert Gives(p, at, a, asked, r);
    }
  }

  /** The records of these answers, in order, and no others. */
  ghost predicate AreGiven(p: seq<byte>, answers: seq<Answer>, offsets: seq<nat>, asked: nat, records: seq<Record>)
    requires |offsets| == |answers| + 1
    decreases |answers|
  {
    if answers == [] then records == []
    else
      var last := |answers| - 1;
      || (&& records != [] && Gives(p, offsets[last], answers[last], asked, records[|records| - 1])
          && AreGiven(p, answers[..last], offsets[..last + 1], asked, records[..|records| - 1]))
      || (&& (forall r :: !Gives(p, offsets[last], answers[last], asked, r))
          && AreGiven(p, answers[..last], offsets[..last + 1], asked, records))
  }

  lemma HeldMore(p: seq<byte>, answers: seq<Answer>, offsets: seq<nat>, asked: nat)
    requires |offsets| == |answers| + 1 && answers != []
    ensures var last := |answers| - 1;
            Held(p, answers, offsets, asked) ==
            Held(p, answers[..last], offsets[..last + 1], asked)
            + Contribution(p, RawOf(offsets[last], answers[last]), asked)
  {
    var last := |answers| - 1;
    var raws := RawsOf(answers, offsets);
    assert raws[..last] == RawsOf(answers[..last], offsets[..last + 1]);
    assert Contributor(p, asked)(raws[last]) == Contribution(p, raws[last], asked);
  }

  lemma {:induction false} GivenIff(p: seq<byte>, answers: seq<Answer>, offsets: seq<nat>, asked: nat, records: seq<Record>)
    requires |offsets| == |answers| + 1
    ensures Held(p, answers, offsets, asked) == records <==> AreGiven(p, answers, offsets, asked, records)
    decreases |answers|
  {
    if answers != [] {
      var last := |answers| - 1;
      var more := Contribution(p, RawOf(offsets[last], answers[last]), asked);
      var held := Held(p, answers[..last], offsets[..last + 1], asked);
      HeldMore(p, answers, offsets, asked);
      ContributionIff(p, offsets[last], answers[last], asked);
      if more == [] {
        assert held + more == held;
        GivenIff(p, answers[..last], offsets[..last + 1], asked, records);
      } else {
        var r := more[0];
        assert more == [r] && Gives(p, offsets[last], answers[last], asked, r);
        if records != [] {
          GivenIff(p, answers[..last], offsets[..last + 1], asked, records[..|records| - 1]);
          assert records == records[..|records| - 1] + [records[|records| - 1]];
          assert held + more == records <==> held == records[..|records| - 1] && r == records[|records| - 1];
          assert forall q :: Gives(p, offsets[last], answers[last], asked, q) ==> more == [q];
        }
      }
    }
  }

  lemma BodyIsRead(p: seq<byte>, asked: nat, names: seq<Spelling>, answers: seq<Answer>, offsets: seq<nat>)
    requires IsBody(p, names, answers, offsets)
    ensures PastQuestions(p, 12, PairAt(p, 4).value) == Some(offsets[0])
    ensures AnswersAt(p, offsets[0], PairAt(p, 6).value, asked) ==
            Some(Progress(|answers|, Held(p, answers, offsets, asked), offsets[|answers|]))
  {
    AskedIsPast(p, 12, names, offsets[0]);
    AnswersAreRead(p, answers, offsets, asked);
  }

  lemma ReadHasBody(p: seq<byte>, asked: nat, at: nat)
    requires 12 <= |p| && PastQuestions(p, 12, PairAt(p, 4).value) == Some(at)
    requires AnswersAt(p, at, PairAt(p, 6).value, asked).Some?
    ensures HasBody(p)
  {
    var names := PastIsAsked(p, 12, PairAt(p, 4).value);
    ReadAnswersAreLaidOut(p, at, PairAt(p, 6).value, asked);
    var answers, offsets :| LaidOut(p, answers, offsets) && offsets[0] == at && |answers| == PairAt(p, 6).value;
    assert IsBody(p, names, answers, offsets);
  }

  /** A packet is an answer with these records if and only if it has the question's
      id, says that nothing went wrong, and is laid out as its counts say with
      exactly these records of the asked type in it. */
  lemma AnswersIff(p: seq<byte>, question: seq<byte>, asked: nat, records: seq<Record>)
    ensures Message(p, question, asked) == Answers(records) <==>
            && records != [] && IsToQuestion(p, question) && p[3] % 16 == 0
            && exists names, answers, offsets ::
                 IsBody(p, names, answers, offsets) && AreGiven(p, answers, offsets, asked, records)
  {
    if 12 <= |p| && 2 <= |question| {
      SameId(p, question);
    }
    if Message(p, question, asked) == Answers(records) {
      var at := PastQuestions(p, 12, PairAt(p, 4).value).value;
      ReadHasBody(p, asked, at);
      var names, answers, offsets :| IsBody(p, names, answers, offsets);
      BodyIsRead(p, asked, names, answers, offsets);
      GivenIff(p, answers, offsets, asked, records);
    }
    if records != [] && IsToQuestion(p, question) && p[3] % 16 == 0 {
      forall names, answers, offsets | IsBody(p, names, answers, offsets) && AreGiven(p, answers, offsets, asked, records)
        ensures Message(p, question, asked) == Answers(records)
      {
        BodyIsRead(p, asked, names, answers, offsets);
        GivenIff(p, answers, offsets, asked, records);
      }
    }
  }

  lemma SameId(p: seq<byte>, question: seq<byte>)
    requires 12 <= |p| && 2 <= |question|
    ensures p[0..2] == question[0..2] <==> p[0] == question[0] && p[1] == question[1]
  {
    assert p[0..2] == [p[0], p[1]] && question[0..2] == [question[0], question[1]];
  }

  /** Every other packet fails, and says how: by the code the resolver gave, with no
      data where it is laid out and holds nothing that was asked for, and as a bad
      response otherwise. */
  lemma FailsAs(p: seq<byte>, question: seq<byte>, asked: nat)
    ensures !IsToQuestion(p, question) ==> Message(p, question, asked) == Failed(BadResponse)
    ensures IsToQuestion(p, question) ==>
              var rcode, said := p[3] % 16, Message(p, question, asked);
              && (rcode == 1 ==> said == Failed(FormatError))
              && (rcode == 2 ==> said == Failed(ServerFailure))
              && (rcode == 3 ==> said == Failed(NotFound))
              && (rcode == 4 ==> said == Failed(NotImplemented))
              && (rcode == 5 ==> said == Failed(Refused))
              && (rcode > 5 ==> said == Failed(BadResponse))
              && (rcode == 0 && !HasBody(p) ==> said == Failed(BadResponse))
    ensures IsToQuestion(p, question) && p[3] % 16 == 0 && HasBody(p) ==>
              Message(p, question, asked) != Failed(BadResponse)
              && (Message(p, question, asked).Failed? ==> Message(p, question, asked) == Failed(NoData))
  {
    if 12 <= |p| && 2 <= |question| {
      SameId(p, question);
    }
    if IsToQuestion(p, question) && p[3] % 16 == 0 {
      if HasBody(p) {
        var names, answers, offsets :| IsBody(p, names, answers, offsets);
        BodyIsRead(p, asked, names, answers, offsets);
      } else {
        var past := PastQuestions(p, 12, PairAt(p, 4).value);
        if past.Some? && AnswersAt(p, past.value, PairAt(p, 6).value, asked).Some? {
          ReadHasBody(p, asked, past.value);
        }
      }
    }
  }
}
