/** A whole answer, read into the records of the type that was asked about,
    as sections 4.1.1 to 4.1.3 of RFC 1035 lay one out. */
module DnsMessage {
  import opened Wrappers
  import opened DnsNames
  import opened Walks

  // The record types that are asked for, by the numbers on the wire.
  const A := 1
  const NS := 2
  const CNAME := 5
  const SOA := 6
  const PTR := 12
  const MX := 15
  const TXT := 16
  const AAAA := 28
  const SRV := 33
  const CAA := 257

  const IN := 1

  datatype Record =
    | Address(octets: seq<byte>)
    | Alias(name: seq<Label>)
    | Mail(preference: nat, exchange: seq<Label>)
    | Text(strings: seq<seq<byte>>)
    | Service(priority: nat, weight: nat, port: nat, target: seq<Label>)
    | Authority(mname: seq<Label>, rname: seq<Label>, timers: Timers)
    | Certificate(critical: bool, tag: seq<byte>, content: seq<byte>)

  datatype Code = BadResponse | FormatError | ServerFailure | NotFound | NotImplemented | Refused | NoData

  datatype Found = Answers(records: seq<Record>) | Failed(code: Code)

  // One record.

  ghost function NameIn(p: seq<byte>, at: nat): Option<seq<Label>> {
    match ReadAt(p, at, at)
    case None => None
    case Some(s) => Some(LabelsOf(s))
  }

  ghost function Strings(rdata: seq<byte>, at: nat): Option<seq<seq<byte>>>
    decreases |rdata| - at
  {
    if at >= |rdata| then Some([])
    else
      var next := at + 1 + rdata[at];
      if next > |rdata| then None
      else match Strings(rdata, next)
           case None => None
           case Some(rest) => Some([rdata[at + 1..next]] + rest)
  }

  lemma StringsStep(rdata: seq<byte>, at: nat, said: seq<seq<byte>>)
    requires at < |rdata|
    ensures var next := at + 1 + rdata[at];
            if next > |rdata| then Strings(rdata, at).None?
            else
              && (Strings(rdata, at).Some? <==> Strings(rdata, next).Some?)
              && (Strings(rdata, at).Some? ==>
                    said + Strings(rdata, at).value == said + [rdata[at + 1..next]] + Strings(rdata, next).value)
  {
  }

  /** The five numbers at the end of a start of authority. */
  datatype Timers = Timers(serial: nat, refresh: nat, retry: nat, expire: nat, minimum: nat)

  ghost function TimersAt(p: seq<byte>, at: nat): Option<Timers> {
    if at + 20 > |p| then None
    else Some(Timers(FourAt(p, at).value, FourAt(p, at + 4).value, FourAt(p, at + 8).value,
                     FourAt(p, at + 12).value, FourAt(p, at + 16).value))
  }

  ghost function AuthorityAt(p: seq<byte>, at: nat): Option<Record> {
    match ReadAt(p, at, at)
    case None => None
    case Some(m) =>
      match ReadAt(p, at + Extent(m), at + Extent(m))
      case None => None
      case Some(r) =>
        match TimersAt(p, at + Extent(m) + Extent(r))
        case None => None
        case Some(timers) => Some(Authority(LabelsOf(m), LabelsOf(r), timers))
  }

  /** What a record of the asked type says. Names are read from the packet,
      because one may be compressed, and may therefore run past the record's
      own bytes but never past the packet. */
  ghost function Decoded(p: seq<byte>, at: nat, rdata: seq<byte>, asked: nat): Option<Record> {
    if asked == A then (if |rdata| == 4 then Some(Address(rdata)) else None)
    else if asked == AAAA then (if |rdata| == 16 then Some(Address(rdata)) else None)
    else if asked == CNAME || asked == NS || asked == PTR then
      match NameIn(p, at) case None => None case Some(name) => Some(Alias(name))
    else if asked == MX then
      match PairAt(p, at)
      case None => None
      case Some(preference) =>
        match NameIn(p, at + 2) case None => None case Some(name) => Some(Mail(preference, name))
    else if asked == TXT then
      match Strings(rdata, 0) case None => None case Some(strings) => Some(Text(strings))
    else if asked == SRV then
      if at + 6 > |p| then None
      else match NameIn(p, at + 6)
           case None => None
           case Some(name) =>
             Some(Service(PairAt(p, at).value, PairAt(p, at + 2).value, PairAt(p, at + 4).value, name))
    else if asked == SOA then AuthorityAt(p, at)
    else if asked == CAA then
      if |rdata| < 2 || 2 + rdata[1] > |rdata| then None
      else Some(Certificate(rdata[0] >= 128, rdata[2..2 + rdata[1]], rdata[2 + rdata[1]..]))
    else None
  }

  method ReadStrings(rdata: seq<byte>) returns (r: Option<seq<seq<byte>>>)
    ensures r == Strings(rdata, 0)
  {
    var said: seq<seq<byte>> := [];
    var reading := new Reading(rdata, 0);
    while reading.at < |rdata|
      invariant reading.packet == rdata
      invariant reading.at <= |rdata|
      invariant Strings(rdata, 0).Some? <==> Strings(rdata, reading.at).Some?
      invariant Strings(rdata, 0).Some? ==> Strings(rdata, 0).value == said + Strings(rdata, reading.at).value
      decreases |rdata| - reading.at
    {
      StringsStep(rdata, reading.at, said);
      var size := reading.Byte();
      if size.None? {
        return None;
      }
      var text := reading.Bytes(size.value);
      if text.None? {
        return None;
      }
      said := said + [text.value];
    }
    assert said + [] == said;
    r := Some(said);
  }

  method ReadTimers(reading: Reading) returns (r: Option<Timers>)
    modifies reading
    ensures r == TimersAt(reading.packet, old(reading.at))
  {
    var serial := reading.Four();
    if serial.None? {
      return None;
    }
    var refresh := reading.Four();
    if refresh.None? {
      return None;
    }
    var retry := reading.Four();
    if retry.None? {
      return None;
    }
    var expire := reading.Four();
    if expire.None? {
      return None;
    }
    var minimum := reading.Four();
    if minimum.None? {
      return None;
    }
    r := Some(Timers(serial.value, refresh.value, retry.value, expire.value, minimum.value));
  }

  method ReadAuthority(p: seq<byte>, at: nat) returns (r: Option<Record>)
    ensures r == AuthorityAt(p, at)
  {
    var reading := new Reading(p, at);
    var mname := reading.Name();
    if mname.None? {
      return None;
    }
    var rname := reading.Name();
    if rname.None? {
      return None;
    }
    var timers := ReadTimers(reading);
    r := if timers.None? then None else Some(Authority(mname.value, rname.value, timers.value));
  }

  method ReadService(p: seq<byte>, at: nat) returns (r: Option<Record>)
    ensures r == Decoded(p, at, [], SRV)
  {
    var reading := new Reading(p, at);
    var priority := reading.Pair();
    if priority.None? {
      return None;
    }
    var weight := reading.Pair();
    if weight.None? {
      return None;
    }
    var port := reading.Pair();
    if port.None? {
      return None;
    }
    var target := reading.Name();
    if target.None? {
      return None;
    }
    r := Some(Service(priority.value, weight.value, port.value, target.value));
  }

  method ReadRecord(p: seq<byte>, at: nat, rdata: seq<byte>, asked: nat) returns (r: Option<Record>)
    ensures r == Decoded(p, at, rdata, asked)
  {
    if asked == A || asked == AAAA {
      r := if |rdata| == (if asked == A then 4 else 16) then Some(Address(rdata)) else None;
    } else if asked == CNAME || asked == NS || asked == PTR {
      var reading := new Reading(p, at);
      var name := reading.Name();
      r := if name.None? then None else Some(Alias(name.value));
    } else if asked == MX {
      var reading := new Reading(p, at);
      var preference := reading.Pair();
      if preference.None? {
        return None;
      }
      var name := reading.Name();
      r := if name.None? then None else Some(Mail(preference.value, name.value));
    } else if asked == TXT {
      var strings := ReadStrings(rdata);
      r := if strings.None? then None else Some(Text(strings.value));
    } else if asked == SRV {
      r := ReadService(p, at);
    } else if asked == SOA {
      r := ReadAuthority(p, at);
    } else if asked == CAA {
      var reading := new Reading(rdata, 0);
      var flags := reading.Byte();
      if flags.None? {
        return None;
      }
      var size := reading.Byte();
      if size.None? {
        return None;
      }
      var tag := reading.Bytes(size.value);
      if tag.None? {
        return None;
      }
      var content := reading.Bytes(|rdata| - reading.at);
      assert content.value == rdata[2 + size.value..];
      r := Some(Certificate(flags.value >= 128, tag.value, content.value));
    } else {
      r := None;
    }
  }

  // The whole message.

  /** Past so many questions, each a name, a type and a class. */
  ghost function PastQuestions(p: seq<byte>, at: nat, many: nat): Option<nat>
    decreases many
  {
    if many == 0 then Some(at)
    else match ReadAt(p, at, at)
         case None => None
         case Some(s) =>
           var next := at + Extent(s) + 4;
           if next > |p| then None else PastQuestions(p, next, many - 1)
  }

  /** The type, class and size between an answer's owner and its data. */
  datatype Fields = Fields(kind: nat, class': nat, size: nat)

  ghost function FieldsAt(p: seq<byte>, at: nat): Option<Fields> {
    if at + 10 > |p| then None
    else Some(Fields(PairAt(p, at).value, PairAt(p, at + 2).value, PairAt(p, at + 8).value))
  }

  /** One answer before it is looked into: its type and class, its bytes and
      where in the packet they are. */
  datatype Raw = Raw(kind: nat, class': nat, data: nat, rdata: seq<byte>)

  ghost function RawAt(p: seq<byte>, at: nat): Option<Raw> {
    match ReadAt(p, at, at)
    case None => None
    case Some(owner) =>
      match FieldsAt(p, at + Extent(owner))
      case None => None
      case Some(f) =>
        var data := at + Extent(owner) + 10;
        if data + f.size > |p| then None else Some(Raw(f.kind, f.class', data, p[data..data + f.size]))
  }

  /** What one answer adds to the records: nothing when it is of another type
      or class, or does not decode. */
  ghost function Contribution(p: seq<byte>, raw: Raw, asked: nat): seq<Record> {
    if raw.kind == asked && raw.class' == IN then OneOf(Decoded(p, raw.data, raw.rdata, asked)) else []
  }

  /** One answer and where the next one begins. */
  ghost function AnswerReader(p: seq<byte>): nat -> Option<(Raw, nat)> {
    (at: nat) => match RawAt(p, at)
                 case None => None
                 case Some(raw) => Some((raw, raw.data + |raw.rdata|))
  }

  ghost function Contributor(p: seq<byte>, asked: nat): Raw -> seq<Record> {
    (raw: Raw) => Contribution(p, raw, asked)
  }

  ghost function OneOf(r: Option<Record>): seq<Record> {
    if r.Some? then [r.value] else []
  }

  function CodeOf(rcode: nat): Code {
    match rcode
    case 1 => FormatError
    case 2 => ServerFailure
    case 3 => NotFound
    case 4 => NotImplemented
    case 5 => Refused
    case _ => BadResponse
  }

  ghost predicate IsReplyTo(p: seq<byte>, question: seq<byte>) {
    |p| >= 12 && |question| >= 2 && p[0..2] == question[0..2]
  }

  ghost function Message(p: seq<byte>, question: seq<byte>, asked: nat): Found {
    if !IsReplyTo(p, question) then Failed(BadResponse)
    else if p[3] % 16 != 0 then Failed(CodeOf(p[3] % 16))
    else
      match PastQuestions(p, 12, PairAt(p, 4).value)
      case None => Failed(BadResponse)
      case Some(at) =>
        match AnswersAt(p, at, PairAt(p, 6).value, asked)
        case None => Failed(BadResponse)
        case Some(pr) => if pr.said == [] then Failed(NoData) else Answers(pr.said)
  }

  method SkipQuestions(reading: Reading, many: nat) returns (ok: bool)
    requires reading.at <= |reading.packet|
    modifies reading
    ensures ok == PastQuestions(reading.packet, old(reading.at), many).Some?
    ensures ok ==> PastQuestions(reading.packet, old(reading.at), many) == Some(reading.at)
    ensures reading.at <= |reading.packet|
  {
    var left := many;
    while left > 0
      invariant reading.at <= |reading.packet|
      invariant PastQuestions(reading.packet, old(reading.at), many) ==
                PastQuestions(reading.packet, reading.at, left)
    {
      var name := reading.Name();
      if name.None? {
        return false;
      }
      var kind := reading.Pair();
      if kind.None? {
        return false;
      }
      var class' := reading.Pair();
      if class'.None? {
        return false;
      }
      left := left - 1;
    }
    ok := true;
  }

  method ReadFields(reading: Reading) returns (r: Option<Fields>)
    modifies reading
    ensures r == FieldsAt(reading.packet, old(reading.at))
    ensures r.Some? ==> reading.at == old(reading.at) + 10
    ensures old(reading.at) <= |reading.packet| ==> reading.at <= |reading.packet|
  {
    var kind := reading.Pair();
    if kind.None? {
      return None;
    }
    var class' := reading.Pair();
    if class'.None? {
      return None;
    }
    var ttl := reading.Four();
    if ttl.None? {
      return None;
    }
    var size := reading.Pair();
    if size.None? {
      return None;
    }
    r := Some(Fields(kind.value, class'.value, size.value));
  }

  method ReadAnswer(reading: Reading) returns (r: Option<Raw>)
    requires reading.at <= |reading.packet|
    modifies reading
    ensures r == RawAt(reading.packet, old(reading.at))
    ensures r.Some? ==> reading.at == r.value.data + |r.value.rdata|
    ensures reading.at <= |reading.packet|
  {
    var owner := reading.Name();
    if owner.None? {
      return None;
    }
    var f := ReadFields(reading);
    if f.None? {
      return None;
    }
    var rdata := reading.Bytes(f.value.size);
    if rdata.None? {
      return None;
    }
    r := Some(Raw(f.value.kind, f.value.class', reading.at - f.value.size, rdata.value));
  }

  /** The records of so many answers, or nothing when the packet ends inside
      one of them. */
  ghost function AnswersAt(p: seq<byte>, at: nat, many: nat, asked: nat): Option<Progress<Record>> {
    SayAll(AnswerReader(p), Contributor(p, asked), at, many)
  }

  /** Reads one answer and pushes what it holds when it is of the asked type
      and class. */
  method ReadOne(reading: Reading, asked: nat, records: seq<Record>) returns (raw: Option<Raw>, pushed: seq<Record>)
    requires reading.at <= |reading.packet|
    modifies reading
    ensures raw == RawAt(reading.packet, old(reading.at))
    ensures raw.Some? ==> reading.at == raw.value.data + |raw.value.rdata|
    ensures raw.Some? ==> pushed == records + Contribution(reading.packet, raw.value, asked)
    ensures reading.at <= |reading.packet|
  {
    raw := ReadAnswer(reading);
    pushed := records;
    if raw.Some? && raw.value.kind == asked && raw.value.class' == IN {
      var one := ReadRecord(reading.packet, raw.value.data, raw.value.rdata, asked);
      if one.Some? {
        pushed := records + [one.value];
      }
    }
  }

  /** One more answer, in the terms of the walk. */
  method Advance(reading: Reading, ghost start: nat, asked: nat, pr: Progress<Record>) returns (r: Option<Progress<Record>>)
    requires reading.at == pr.next <= |reading.packet|
    requires AnswersAt(reading.packet, start, pr.done, asked) == Some(pr)
    modifies reading
    ensures r.None? ==> AnswerReader(reading.packet)(pr.next).None?
    ensures r.Some? ==> AnswersAt(reading.packet, start, pr.done + 1, asked) == r && r.value.done == pr.done + 1
    ensures r.Some? ==> reading.at == r.value.next
    ensures reading.at <= |reading.packet|
  {
    var raw, pushed := ReadOne(reading, asked, pr.said);
    if raw.None? {
      return None;
    }
    SayingGrows(AnswerReader(reading.packet), Contributor(reading.packet, asked), start, pr, raw.value, reading.at);
    r := Some(Progress(pr.done + 1, pushed, reading.at));
  }

  /** Reads the answers into the records of the asked type. The cursor never
      leaves the packet, whatever the packet says. */
  method ReadAnswers(reading: Reading, many: nat, asked: nat) returns (r: Option<Progress<Record>>)
    requires reading.at <= |reading.packet|
    modifies reading
    ensures r == AnswersAt(reading.packet, old(reading.at), many, asked)
    ensures reading.at <= |reading.packet|
  {
    ghost var start := reading.at;
    var pr := Progress(0, [], reading.at);
    while pr.done < many
      invariant pr.done <= many
      invariant reading.at == pr.next <= |reading.packet|
      invariant AnswersAt(reading.packet, start, pr.done, asked) == Some(pr)
    {
      var more := Advance(reading, start, asked, pr);
      if more.None? {
        SayingEnds(AnswerReader(reading.packet), Contributor(reading.packet, asked), start, pr, many);
        return None;
      }
      pr := more.value;
    }
    r := Some(pr);
  }

  method Read(p: seq<byte>, question: seq<byte>, asked: nat) returns (r: Found)
    ensures r == Message(p, question, asked)
  {
    if |p| < 12 || |question| < 2 || p[0..2] != question[0..2] {
      return Failed(BadResponse);
    }
    var code := p[3] % 16;
    if code != 0 {
      return Failed(CodeOf(code));
    }
    var reading := new Reading(p, 4);
    var questions := reading.Pair();
    var answers := reading.Pair();
    reading.at := 12;
    var past := SkipQuestions(reading, questions.value);
    if !past {
      return Failed(BadResponse);
    }
    var all := ReadAnswers(reading, answers.value, asked);
    if all.None? {
      return Failed(BadResponse);
    }
    r := if all.value.said == [] then Failed(NoData) else Answers(all.value.said);
  }
}
