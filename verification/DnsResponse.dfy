/** Responses as a whole: reading finds exactly what is laid out. */
module DnsResponse {
  import opened Wrappers
  import opened DnsNames
  import opened DnsWriting
  import opened DnsMessage
  import opened DnsLayout
  import opened Walks

  // Answers of any kind.

  /** One answer as it stands in a packet, its owner compressed or not. */
  datatype Answer = Answer(owner: Spelling, kind: nat, class': nat, rdata: seq<byte>)

  function Size(a: Answer): nat {
    Extent(a.owner) + 10 + |a.rdata|
  }

  ghost predicate AnswerAt(p: seq<byte>, at: nat, a: Answer) {
    && Spelled(p, at, a.owner) && Descending(a.owner, at)
    && FieldsAt(p, at + Extent(a.owner)) == Some(Fields(a.kind, a.class', |a.rdata|))
    && At(p, at + Extent(a.owner) + 10, a.rdata)
  }

  /** The answers stand at these offsets, one after the other. */
  ghost predicate LaidOut(p: seq<byte>, answers: seq<Answer>, offsets: seq<nat>) {
    && |offsets| == |answers| + 1
    && forall i :: 0 <= i < |answers| ==>
         AnswerAt(p, offsets[i], answers[i]) && offsets[i + 1] == offsets[i] + Size(answers[i])
  }

  /** An answer as the reader finds it at an offset. */
  function RawOf(at: nat, a: Answer): Raw {
    Raw(a.kind, a.class', at + Extent(a.owner) + 10, a.rdata)
  }

  ghost function RawsOf(answers: seq<Answer>, offsets: seq<nat>): (raws: seq<Raw>)
    requires |offsets| == |answers| + 1
    ensures |raws| == |answers|
  {
    seq(|answers|, i requires 0 <= i < |answers| => RawOf(offsets[i], answers[i]))
  }

  /** The records the answers hold: those of the asked type and of the
      internet class that decode, in order. */
  ghost function Held(p: seq<byte>, answers: seq<Answer>, offsets: seq<nat>, asked: nat): seq<Record>
    requires |offsets| == |answers| + 1
  {
    Said(Contributor(p, asked), RawsOf(answers, offsets))
  }

  lemma AnswerIsRead(p: seq<byte>, at: nat, a: Answer)
    requires AnswerAt(p, at, a)
    ensures AnswerReader(p)(at) == Some((RawOf(at, a), at + Size(a)))
  {
    ReadIsComplete(p, at, at, a.owner);
    assert RawAt(p, at) == Some(RawOf(at, a));
  }

  lemma AnswersAreRead(p: seq<byte>, answers: seq<Answer>, offsets: seq<nat>, asked: nat)
    requires LaidOut(p, answers, offsets)
    ensures AnswersAt(p, offsets[0], |answers|, asked) ==
            Some(Progress(|answers|, Held(p, answers, offsets, asked), offsets[|answers|]))
  {
    var raws := RawsOf(answers, offsets);
    forall i | 0 <= i < |raws|
      ensures AnswerReader(p)(offsets[i]) == Some((raws[i], offsets[i + 1]))
    {
      AnswerIsRead(p, offsets[i], answers[i]);
    }
    ChainIsWalked(AnswerReader(p), raws, offsets, |raws|);
    assert raws[..|raws|] == raws;
  }

  /** What is read where an answer begins is an answer. */
  lemma RawIsAnswer(p: seq<byte>, at: nat, raw: Raw, next: nat) returns (a: Answer)
    requires AnswerReader(p)(at) == Some((raw, next))
    ensures AnswerAt(p, at, a) && next == at + Size(a)
  {
    ReadIsSound(p, at, at);
    assert RawAt(p, at) == Some(raw);
    a := Answer(ReadAt(p, at, at).value, raw.kind, raw.class', raw.rdata);
  }

  lemma LaidOutMore(p: seq<byte>, answers: seq<Answer>, offsets: seq<nat>, a: Answer, end: nat)
    requires LaidOut(p, answers, offsets)
    requires AnswerAt(p, offsets[|answers|], a) && end == offsets[|answers|] + Size(a)
    ensures LaidOut(p, answers + [a], offsets + [end])
  {
  }

  lemma {:induction false} RawsAreAnswers(p: seq<byte>, raws: seq<Raw>, offsets: seq<nat>, many: nat)
    returns (answers: seq<Answer>)
    requires Chained(AnswerReader(p), raws, offsets) && many <= |raws|
    ensures |answers| == many && LaidOut(p, answers, offsets[..many + 1])
    decreases many
  {
    if many == 0 {
      answers := [];
    } else {
      var before := RawsAreAnswers(p, raws, offsets, many - 1);
      var a := RawIsAnswer(p, offsets[many - 1], raws[many - 1], offsets[many]);
      LaidOutMore(p, before, offsets[..many], a, offsets[many]);
      assert offsets[..many] + [offsets[many]] == offsets[..many + 1];
      answers := before + [a];
    }
  }

  /** A packet the reader gets to the end of is laid out as so many answers,
      so reading falls short on exactly the packets that are not. */
  lemma ReadAnswersAreLaidOut(p: seq<byte>, at: nat, many: nat, asked: nat)
    ensures AnswersAt(p, at, many, asked).Some? <==>
            exists answers, offsets :: LaidOut(p, answers, offsets) && offsets[0] == at && |answers| == many
  {
    if AnswersAt(p, at, many, asked).Some? {
      var offsets := WalkIsChained(AnswerReader(p), at, many);
      var raws := Walk(AnswerReader(p), at, many).value.items;
      var answers := RawsAreAnswers(p, raws, offsets, many);
      assert offsets[..many + 1] == offsets;
      assert LaidOut(p, answers, offsets) && offsets[0] == at && |answers| == many;
    }
    forall answers, offsets | LaidOut(p, answers, offsets) && offsets[0] == at && |answers| == many
      ensures AnswersAt(p, at, many, asked).Some?
    {
      AnswersAreRead(p, answers, offsets, asked);
    }
  }

  /** For every packet whose header answers the question and whose body is
      questions followed by answers, reading returns exactly the decodable
      records of the asked type and class, in order. */
  lemma MessageIsRead(p: seq<byte>, question: seq<byte>, asked: nat, answers: seq<Answer>, offsets: seq<nat>)
    requires IsReplyTo(p, question) && p[3] % 16 == 0
    requires LaidOut(p, answers, offsets)
    requires PastQuestions(p, 12, PairAt(p, 4).value) == Some(offsets[0])
    requires PairAt(p, 6) == Some(|answers|)
    ensures var held := Held(p, answers, offsets, asked);
            Message(p, question, asked) == if held == [] then Failed(NoData) else Answers(held)
  {
    AnswersAreRead(p, answers, offsets, asked);
  }

  // Responses a resolver builds.

  datatype Item = Item(owner: seq<Label>, kind: nat, class': nat, ttl: nat, record: Record)

  predicate Buildable(i: Item) {
    && AreLabels(i.owner)
    && i.kind < 0x1_0000 && i.class' < 0x1_0000 && i.ttl < 0x1_0000_0000
    && Fits(i.record, i.kind)
    && |Data(i.record, i.kind)| < 0x1_0000
  }

  function FieldsWire(kind: u16, class': u16, ttl: u32, size: u16): (w: seq<byte>)
    ensures |w| == 10
  {
    U16(kind) + (U16(class') + (U32(ttl) + U16(size)))
  }

  function ItemWire(i: Item): seq<byte>
    requires Buildable(i)
  {
    var data := Data(i.record, i.kind);
    Wire(i.owner) + (FieldsWire(i.kind, i.class', i.ttl, |data|) + data)
  }

  function ItemWires(items: seq<Item>): (wires: seq<seq<byte>>)
    requires forall k :: 0 <= k < |items| ==> Buildable(items[k])
    ensures |wires| == |items| && forall k :: 0 <= k < |items| ==> wires[k] == ItemWire(items[k])
  {
    seq(|items|, k requires 0 <= k < |items| => ItemWire(items[k]))
  }

  function AnswerOf(i: Item): Answer
    requires Buildable(i)
  {
    Answer(Plainly(i.owner, End), i.kind, i.class', Data(i.record, i.kind))
  }

  lemma FieldsReadBack(p: seq<byte>, at: nat, kind: u16, class': u16, ttl: u32, size: u16)
    requires At(p, at, FieldsWire(kind, class', ttl, size))
    ensures FieldsAt(p, at) == Some(Fields(kind, class', size))
  {
    AtSplits(p, at, U16(kind), U16(class') + (U32(ttl) + U16(size)));
    AtSplits(p, at + 2, U16(class'), U32(ttl) + U16(size));
    AtSplits(p, at + 4, U32(ttl), U16(size));
    U16ReadsBack(p, at, kind);
    U16ReadsBack(p, at + 2, class');
    U16ReadsBack(p, at + 8, size);
  }

  lemma PartsOfThree(p: seq<byte>, at: nat, a: seq<byte>, b: seq<byte>, c: seq<byte>)
    requires At(p, at, a + (b + c))
    ensures At(p, at, a) && At(p, at + |a|, b) && At(p, at + |a| + |b|, c)
  {
    AtSplits(p, at, a, b + c);
    AtSplits(p, at + |a|, b, c);
  }

  lemma OwnerStands(p: seq<byte>, at: nat, owner: seq<Label>, kind: nat, class': nat, rdata: seq<byte>)
    requires AreLabels(owner) && At(p, at, Wire(owner))
    requires FieldsAt(p, at + |Wire(owner)|) == Some(Fields(kind, class', |rdata|))
    requires At(p, at + |Wire(owner)| + 10, rdata)
    ensures var a := Answer(Plainly(owner, End), kind, class', rdata);
            AnswerAt(p, at, a) && Extent(a.owner) == |Wire(owner)|
  {
    WireSpells(p, at, owner);
    LabelsDescend(owner, End, at);
  }

  /** An answer written in full, whatever its data is. */
  lemma WrittenAnswer(p: seq<byte>, at: nat, owner: seq<Label>, kind: u16, class': u16, ttl: u32, data: seq<byte>)
    requires AreLabels(owner) && |data| < 0x1_0000
    requires At(p, at, Wire(owner) + (FieldsWire(kind, class', ttl, |data|) + data))
    ensures var a := Answer(Plainly(owner, End), kind, class', data);
            AnswerAt(p, at, a) && Extent(a.owner) == |Wire(owner)|
    ensures At(p, at + |Wire(owner)| + 10, data)
  {
    PartsOfThree(p, at, Wire(owner), FieldsWire(kind, class', ttl, |data|), data);
    FieldsReadBack(p, at + |Wire(owner)|, kind, class', ttl, |data|);
    OwnerStands(p, at, owner, kind, class', data);
  }

  lemma ItemIsAnswer(p: seq<byte>, at: nat, i: Item)
    requires Buildable(i) && At(p, at, ItemWire(i))
    ensures AnswerAt(p, at, AnswerOf(i)) && Size(AnswerOf(i)) == |ItemWire(i)|
    ensures At(p, at + |Wire(i.owner)| + 10, Data(i.record, i.kind))
    ensures Extent(AnswerOf(i).owner) == |Wire(i.owner)|
  {
    WrittenAnswer(p, at, i.owner, i.kind, i.class', i.ttl, Data(i.record, i.kind));
  }

  /** The record of an item of the asked type and of the internet class. */
  ghost function Chooser(asked: nat): Item -> seq<Record> {
    (i: Item) => if i.kind == asked && i.class' == IN then [i.record] else []
  }

  lemma ContributionIs(p: seq<byte>, raw: Raw, asked: nat, record: Record)
    requires raw.kind == asked ==> Decoded(p, raw.data, raw.rdata, asked) == Some(record)
    ensures Contributor(p, asked)(raw) == if raw.kind == asked && raw.class' == IN then [record] else []
  {
  }

  /** What one item adds to the records that are read. */
  lemma ItemIsRead(p: seq<byte>, data: nat, i: Item, asked: nat)
    requires Buildable(i) && At(p, data, Data(i.record, i.kind))
    ensures Contributor(p, asked)(Raw(i.kind, i.class', data, Data(i.record, i.kind))) == Chooser(asked)(i)
  {
    RecordReadsBack(p, data, i.record, i.kind);
    ContributionIs(p, Raw(i.kind, i.class', data, Data(i.record, i.kind)), asked, i.record);
  }

  lemma OneItem(p: seq<byte>, at: nat, i: Item, asked: nat)
    requires Buildable(i) && At(p, at, ItemWire(i))
    ensures AnswerAt(p, at, AnswerOf(i)) && Size(AnswerOf(i)) == |ItemWire(i)|
    ensures Contributor(p, asked)(RawOf(at, AnswerOf(i))) == Chooser(asked)(i)
  {
    ItemIsAnswer(p, at, i);
    var data := at + |Wire(i.owner)| + 10;
    assert RawOf(at, AnswerOf(i)) == Raw(i.kind, i.class', data, Data(i.record, i.kind));
    ItemIsRead(p, data, i, asked);
  }

  predicate AllBuildable(items: seq<Item>) {
    forall k :: 0 <= k < |items| ==> Buildable(items[k])
  }

  function AnswersOf(items: seq<Item>): (answers: seq<Answer>)
    requires AllBuildable(items)
    ensures |answers| == |items|
  {
    seq(|items|, k requires 0 <= k < |items| && Buildable(items[k]) => AnswerOf(items[k]))
  }

  lemma ItemStands(p: seq<byte>, at: nat, items: seq<Item>, asked: nat, k: nat)
    requires AllBuildable(items)
    requires At(p, at, Concat(ItemWires(items))) && k < |items|
    ensures var offsets := Starts(at, ItemWires(items));
            var answer := AnswerOf(items[k]);
            && AnswerAt(p, offsets[k], answer) && offsets[k + 1] == offsets[k] + Size(answer)
            && Contributor(p, asked)(RawOf(offsets[k], answer)) == Chooser(asked)(items[k])
  {
    var wires := ItemWires(items);
    PartsStand(p, at, wires, k);
    StartsStep(at, wires, k);
    OneItem(p, Starts(at, wires)[k], items[k], asked);
  }

  lemma ItemsAreAnswers(p: seq<byte>, at: nat, items: seq<Item>, asked: nat)
    returns (answers: seq<Answer>, offsets: seq<nat>)
    requires AllBuildable(items)
    requires At(p, at, Concat(ItemWires(items)))
    ensures |answers| == |items| && LaidOut(p, answers, offsets) && offsets[0] == at
    ensures Held(p, answers, offsets, asked) == Said(Chooser(asked), items)
  {
    offsets, answers := Starts(at, ItemWires(items)), AnswersOf(items);
    StartsAndEnds(at, ItemWires(items));
    forall k | 0 <= k < |items|
      ensures AnswerAt(p, offsets[k], answers[k]) && offsets[k + 1] == offsets[k] + Size(answers[k])
      ensures Contributor(p, asked)(RawOf(offsets[k], answers[k])) == Chooser(asked)(items[k])
    {
      ItemStands(p, at, items, asked, k);
    }
    assert LaidOut(p, answers, offsets);
    SameSaid(Contributor(p, asked), RawsOf(answers, offsets), Chooser(asked), items);
  }

  datatype Question = Question(name: seq<Label>, kind: nat, class': nat)

  predicate Askable(q: Question) {
    AreLabels(q.name) && q.kind < 0x1_0000 && q.class' < 0x1_0000
  }

  function QuestionWire(q: Question): (w: seq<byte>)
    requires Askable(q)
    ensures |w| == |Wire(q.name)| + 4
  {
    Wire(q.name) + (U16(q.kind) + U16(q.class'))
  }

  /** The header every answer to one question opens with. */
  function Header(id: seq<byte>, many: u16): (w: seq<byte>)
    requires |id| == 2
    ensures |w| == 12
  {
    id + ([0x81, 0x80] + (U16(1) + (U16(many) + [0, 0, 0, 0])))
  }

  function Response(id: seq<byte>, q: Question, items: seq<Item>): seq<byte>
    requires |id| == 2 && Askable(q) && |items| < 0x1_0000
    requires forall k :: 0 <= k < |items| ==> Buildable(items[k])
  {
    Header(id, |items|) + (QuestionWire(q) + Concat(ItemWires(items)))
  }

  lemma HeaderIsRead(p: seq<byte>, id: seq<byte>, many: u16)
    requires |id| == 2 && At(p, 0, Header(id, many))
    ensures p[0..2] == id && p[3] == 0x80
    ensures PairAt(p, 4) == Some(1) && PairAt(p, 6) == Some(many)
  {
    AtSplits(p, 0, id, [0x81, 0x80] + (U16(1) + (U16(many) + [0, 0, 0, 0])));
    AtSplits(p, 2, [0x81, 0x80], U16(1) + (U16(many) + [0, 0, 0, 0]));
    AtSplits(p, 4, U16(1), U16(many) + [0, 0, 0, 0]);
    AtSplits(p, 6, U16(many), [0, 0, 0, 0]);
    assert p[3] == p[2..4][1];
    U16ReadsBack(p, 4, 1);
    U16ReadsBack(p, 6, many);
  }

  lemma QuestionIsRead(p: seq<byte>, at: nat, q: Question)
    requires Askable(q) && At(p, at, QuestionWire(q))
    ensures PastQuestions(p, at, 1) == Some(at + |QuestionWire(q)|)
  {
    AtSplits(p, at, Wire(q.name), U16(q.kind) + U16(q.class'));
    NameReadsBack(p, at, q.name);
    assert PastQuestions(p, at + |QuestionWire(q)|, 0) == Some(at + |QuestionWire(q)|);
  }

  lemma OpeningIsRead(p: seq<byte>, id: seq<byte>, q: Question, many: u16, question: seq<byte>)
    requires |id| == 2 && Askable(q) && |question| >= 2 && question[0..2] == id
    requires At(p, 0, Header(id, many)) && At(p, 12, QuestionWire(q))
    ensures IsReplyTo(p, question) && p[3] % 16 == 0
    ensures PastQuestions(p, 12, PairAt(p, 4).value) == Some(12 + |QuestionWire(q)|)
    ensures PairAt(p, 6) == Some(many)
  {
    HeaderIsRead(p, id, many);
    QuestionIsRead(p, 12, q);
  }

  /** A packet that opens with a header, a question and any list of records,
      whatever follows them, reads as the records of the asked type and
      class. */
  lemma PacketIsRead(p: seq<byte>, id: seq<byte>, q: Question, items: seq<Item>, question: seq<byte>, asked: nat)
    requires |id| == 2 && Askable(q) && |items| < 0x1_0000
    requires forall k :: 0 <= k < |items| ==> Buildable(items[k])
    requires |question| >= 2 && question[0..2] == id
    requires At(p, 0, Header(id, |items|)) && At(p, 12, QuestionWire(q))
    requires At(p, 12 + |QuestionWire(q)|, Concat(ItemWires(items)))
    ensures var records := Said(Chooser(asked), items);
            Message(p, question, asked) == if records == [] then Failed(NoData) else Answers(records)
  {
    OpeningIsRead(p, id, q, |items|, question);
    var answers, offsets := ItemsAreAnswers(p, 12 + |QuestionWire(q)|, items, asked);
    MessageIsRead(p, question, asked, answers, offsets);
  }

  /** Every response a resolver builds is such a packet, with nothing after
      its records. */
  lemma ResponseIsSuchAPacket(id: seq<byte>, q: Question, items: seq<Item>)
    requires |id| == 2 && Askable(q) && |items| < 0x1_0000
    requires forall k :: 0 <= k < |items| ==> Buildable(items[k])
    ensures var p := Response(id, q, items);
            && At(p, 0, Header(id, |items|)) && At(p, 12, QuestionWire(q))
            && At(p, 12 + |QuestionWire(q)|, Concat(ItemWires(items)))
  {
    PartsOfThree(Response(id, q, items), 0, Header(id, |items|), QuestionWire(q), Concat(ItemWires(items)));
  }
}
