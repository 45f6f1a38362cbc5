/** Whether an answer is the one the reference gave. */
module Answers {
  import opened Wrappers
  import opened Orders
  import opened Sorting
  import opened JsonDiff

  /** `text` is the body as it went over the wire. */
  datatype Answer = Answer(status: nat, headers: map<string, string>, body: Json, text: string)

  datatype Verdict = Same | Written | Different

  datatype Line =
    | StatusLine(gotStatus: nat, wantStatus: nat)
    | HeaderLine(name: string, gotHeader: Option<string>, wantHeader: Option<string>)
    | BodyLine(place: Place)
    | MoreLine(rest: nat)
    | NumbersLine(gotNumbers: seq<string>, wantNumbers: seq<string>)
    | WrittenLine(gotText: string, wantText: string)

  datatype Difference = Difference(verdict: Verdict, lines: seq<Line>)

  // The numbers of a body as they were written.

  predicate StartsNumber(c: char) {
    c == '-' || '0' <= c <= '9'
  }

  predicate InNumber(c: char) {
    '0' <= c <= '9' || c == '.' || c == 'e' || c == 'E' || c == '+' || c == '-'
  }

  /** How far a number goes on. */
  function Run(s: string): (n: nat)
    ensures n <= |s|
  {
    if s == [] || !InNumber(s[0]) then 0 else 1 + Run(s[1..])
  }

  function Literals(s: string, inString: bool): seq<string>
    decreases |s|
  {
    if s == [] then []
    else if inString then
      if s[0] == '\\' then Literals(if |s| > 1 then s[2..] else [], true) else Literals(s[1..], s[0] != '"')
    else if StartsNumber(s[0]) then
      var n := 1 + Run(s[1..]);
      [s[..n]] + Literals(s[n..], false)
    else Literals(s[1..], s[0] == '"')
  }

  // Where the numbers are, one character at a time.

  datatype Where = Outside | InDigits | Inside | Escaped

  function Onward(w: Where, c: char): Where {
    match w
    case Inside => if c == '\\' then Escaped else if c == '"' then Outside else Inside
    case Escaped => Inside
    case InDigits =>
      if c in "0123456789.eE+-" then InDigits else if c == '"' then Inside else Outside
    case Outside =>
      if c in "0123456789-" then InDigits else if c == '"' then Inside else Outside
  }

  function WhereAt(text: string, i: nat): Where {
    if i == 0 || |text| < i then Outside else Onward(WhereAt(text, i - 1), text[i - 1])
  }

  ghost function Trace(text: string): nat -> Where {
    (i: nat) => WhereAt(text, i)
  }

  /** Every character from here to there is of one number, and it goes no
      further either way. */
  ghost predicate IsNumber(size: nat, where: nat -> Where, i: nat, j: nat) {
    && i < j <= size
    && where(i) != InDigits && (forall k :: i < k <= j ==> where(k) == InDigits)
    && (j < size ==> where(j + 1) != InDigits)
  }

  /** The spans are all the numbers from a position on. */
  ghost predicate AreNumbers(size: nat, where: nat -> Where, at: nat, spans: seq<(nat, nat)>) {
    forall i: nat, j: nat :: (i, j) in spans <==> at <= i && IsNumber(size, where, i, j)
  }

  ghost predicate AreAscending(at: nat, spans: seq<(nat, nat)>) {
    && (forall x :: 0 <= x < |spans| ==> at <= spans[x].0 <= spans[x].1)
    && (forall x, y :: 0 <= x < y < |spans| ==> spans[x].1 <= spans[y].0)
  }

  ghost predicate AreTexts(text: string, spans: seq<(nat, nat)>, numbers: seq<string>) {
    && |numbers| == |spans|
    && forall x :: 0 <= x < |spans| ==>
         spans[x].0 <= spans[x].1 <= |text| && numbers[x] == text[spans[x].0..spans[x].1]
  }

  /** The scan is between things here. */
  ghost predicate IsReady(text: string, at: nat, inString: bool) {
    && at <= |text|
    && (if inString then WhereAt(text, at) == Inside
        else WhereAt(text, at) == Outside
             || (WhereAt(text, at) == InDigits && (at < |text| ==> !InNumber(text[at]))))
  }

  lemma CharactersOfNumbers(c: char)
    ensures InNumber(c) <==> c in "0123456789.eE+-"
    ensures StartsNumber(c) <==> c in "0123456789-"
  {
  }

  lemma {:induction false} RunGoesOn(text: string, from: nat, at: nat)
    requires from < at <= |text| && WhereAt(text, at) == InDigits
    ensures forall k :: at < k <= at + Run(text[at..]) ==> WhereAt(text, k) == InDigits
    ensures at + Run(text[at..]) < |text| ==> !InNumber(text[at + Run(text[at..])])
    decreases |text| - at
  {
    if at < |text| && InNumber(text[at]) {
      CharactersOfNumbers(text[at]);
      assert text[at..][1..] == text[at + 1..];
      RunGoesOn(text, from, at + 1);
    }
  }

  /** Where nothing begins, the numbers from the next position on are all. */
  lemma NoneBegins(size: nat, where: nat -> Where, at: nat, to: nat, spans: seq<(nat, nat)>)
    requires AreNumbers(size, where, to, spans) && at <= to <= size
    requires forall k :: at < k <= to ==> where(k) != InDigits
    ensures AreNumbers(size, where, at, spans)
  {
    forall i: nat, j: nat
      ensures (i, j) in spans <==> at <= i && IsNumber(size, where, i, j)
    {
      var first := where(i + 1);
    }
  }

  lemma OneBegins(size: nat, where: nat -> Where, at: nat, end: nat, spans: seq<(nat, nat)>)
    requires AreNumbers(size, where, end, spans) && IsNumber(size, where, at, end)
    ensures AreNumbers(size, where, at, [(at, end)] + spans)
  {
    forall i: nat, j: nat
      ensures (i, j) in [(at, end)] + spans <==> at <= i && IsNumber(size, where, i, j)
    {
      assert (i, j) in [(at, end)] + spans <==> (i, j) == (at, end) || (i, j) in spans;
    }
  }

  lemma NumberIs(text: string, at: nat)
    requires at < |text| && IsReady(text, at, false) && StartsNumber(text[at])
    ensures var end := at + 1 + Run(text[at + 1..]);
            IsNumber(|text|, Trace(text), at, end) && IsReady(text, end, false)
  {
    CharactersOfNumbers(text[at]);
    var end := at + 1 + Run(text[at + 1..]);
    assert WhereAt(text, at + 1) == InDigits;
    RunGoesOn(text, at, at + 1);
    if end < |text| {
      CharactersOfNumbers(text[end]);
    }
  }

  /** Past one character that is in no number, or two that are an escape. */
  lemma PassedIs(text: string, at: nat, inString: bool)
    requires at < |text| && IsReady(text, at, inString) && (inString || !StartsNumber(text[at]))
    ensures var two := inString && text[at] == '\\';
            var to := if two && at + 1 < |text| then at + 2 else at + 1;
            && (to < |text| || !two ==> IsReady(text, to, if inString then two || text[at] != '"' else text[at] == '"'))
            && forall k :: at < k <= to ==> WhereAt(text, k) != InDigits
  {
    CharactersOfNumbers(text[at]);
    assert WhereAt(text, at + 1) == Onward(WhereAt(text, at), text[at]);
    if inString && text[at] == '\\' && at + 1 < |text| {
      assert WhereAt(text, at + 2) == Inside;
    }
  }

  /** How far the scan goes in one turn, and whether it is in a string then. */
  function Turn(s: string, inString: bool): (r: (nat, bool))
    requires s != []
    ensures 1 <= r.0 <= |s|
  {
    if inString && s[0] == '\\' then (if |s| > 1 then 2 else 1, true)
    else if inString then (1, s[0] != '"')
    else if StartsNumber(s[0]) then (1 + Run(s[1..]), false)
    else (1, s[0] == '"')
  }

  lemma LiteralsTurn(s: string, inString: bool)
    requires s != []
    ensures var (n, then') := Turn(s, inString);
            Literals(s, inString) ==
            (if !inString && StartsNumber(s[0]) then [s[..n]] else []) + Literals(s[n..], then')
  {
    assert |s| == 1 ==> s[1..] == [];
  }

  /** The same, by place. */
  lemma TurnAt(text: string, at: nat, inString: bool)
    requires at < |text|
    ensures var (n, then') := Turn(text[at..], inString);
            && at + n <= |text|
            && Literals(text[at..], inString) ==
               (if !inString && StartsNumber(text[at]) then [text[at..at + n]] else []) + Literals(text[at + n..], then')
            && (!inString && StartsNumber(text[at]) ==> n == 1 + Run(text[at + 1..]) && !then')
  {
    var s := text[at..];
    var n := Turn(s, inString).0;
    LiteralsTurn(s, inString);
    assert s[n..] == text[at + n..] && s[1..] == text[at + 1..] && s[..n] == text[at..at + n];
  }

  lemma TextsMore(text: string, at: nat, end: nat, spans: seq<(nat, nat)>, numbers: seq<string>)
    requires AreTexts(text, spans, numbers) && at <= end <= |text|
    ensures AreTexts(text, [(at, end)] + spans, [text[at..end]] + numbers)
  {
  }

  /** A turn that finds no number. */
  lemma QuietTurn(text: string, at: nat, inString: bool)
    requires at < |text| && IsReady(text, at, inString) && (inString || !StartsNumber(text[at]))
    ensures var (n, then') := Turn(text[at..], inString);
            && (forall k :: at < k <= at + n ==> Trace(text)(k) != InDigits)
            && (IsReady(text, at + n, then') || at + n == |text|)
  {
    PassedIs(text, at, inString);
  }

  lemma TurnIsReady(text: string, at: nat, inString: bool)
    requires at < |text| && IsReady(text, at, inString)
    ensures var (n, then') := Turn(text[at..], inString);
            at + n <= |text| && (IsReady(text, at + n, then') || at + n == |text|)
  {
    TurnAt(text, at, inString);
    if !inString && StartsNumber(text[at]) {
      NumberIs(text, at);
    } else {
      QuietTurn(text, at, inString);
    }
  }

  /** The spans of a text from a position on, in the turns of the scan. */
  function Spans(text: string, at: nat, inString: bool): seq<(nat, nat)>
    decreases |text| - at
  {
    if at >= |text| then []
    else
      var (n, then') := Turn(text[at..], inString);
      (if !inString && StartsNumber(text[at]) then [(at, at + n)] else []) + Spans(text, at + n, then')
  }

  lemma {:induction false} SpansAreTexts(text: string, at: nat, inString: bool)
    requires at <= |text|
    ensures AreTexts(text, Spans(text, at, inString), Literals(text[at..], inString))
    decreases |text| - at
  {
    if at < |text| {
      TurnAt(text, at, inString);
      var (n, then') := Turn(text[at..], inString);
      SpansAreTexts(text, at + n, then');
      if !inString && StartsNumber(text[at]) {
        TextsMore(text, at, at + n, Spans(text, at + n, then'), Literals(text[at + n..], then'));
      }
    }
  }

  lemma NumberTurnIs(text: string, at: nat, n: nat)
    requires at < |text| && IsReady(text, at, false) && StartsNumber(text[at]) && n == Turn(text[at..], false).0
    ensures IsNumber(|text|, Trace(text), at, at + n)
  {
    TurnAt(text, at, false);
    NumberIs(text, at);
  }

  lemma QuietTurnIs(text: string, at: nat, inString: bool, n: nat, rest: seq<(nat, nat)>)
    requires at < |text| && IsReady(text, at, inString) && (inString || !StartsNumber(text[at]))
    requires n == Turn(text[at..], inString).0 && AreNumbers(|text|, Trace(text), at + n, rest)
    ensures AreNumbers(|text|, Trace(text), at, rest)
  {
    QuietTurn(text, at, inString);
    NoneBegins(|text|, Trace(text), at, at + n, rest);
  }

  function TurnEnd(text: string, at: nat, inString: bool): nat
    requires at < |text|
  {
    at + Turn(text[at..], inString).0
  }

  /** What one turn adds to the spans after it. */
  function TurnSpan(text: string, at: nat, inString: bool): seq<(nat, nat)>
    requires at < |text|
  {
    if !inString && StartsNumber(text[at]) then [(at, TurnEnd(text, at, inString))] else []
  }

  lemma NumberKeeps(text: string, at: nat, end: nat, rest: seq<(nat, nat)>)
    requires at < |text| && IsReady(text, at, false) && StartsNumber(text[at]) && end == TurnEnd(text, at, false)
    requires AreNumbers(|text|, Trace(text), end, rest)
    ensures AreNumbers(|text|, Trace(text), at, [(at, end)] + rest)
  {
    assert IsNumber(|text|, Trace(text), at, end) by {
      NumberTurnIs(text, at, end - at);
    }
    OneBegins(|text|, Trace(text), at, end, rest);
  }

  lemma TurnKeeps(text: string, at: nat, inString: bool, rest: seq<(nat, nat)>, all: seq<(nat, nat)>)
    requires at < |text| && IsReady(text, at, inString) && all == TurnSpan(text, at, inString) + rest
    requires AreNumbers(|text|, Trace(text), TurnEnd(text, at, inString), rest)
    ensures AreNumbers(|text|, Trace(text), at, all)
  {
    if !inString && StartsNumber(text[at]) {
      NumberKeeps(text, at, TurnEnd(text, at, false), rest);
    } else {
      assert all == rest;
      QuietTurnIs(text, at, inString, Turn(text[at..], inString).0, rest);
    }
  }

  type Spanned = (nat, seq<(nat, nat)>) -> bool

  ghost predicate IsKept(text: string, holds: Spanned) {
    && holds(|text|, [])
    && forall at: nat, inString, rest ::
         at < |text| && IsReady(text, at, inString) && holds(TurnEnd(text, at, inString), rest) ==>
           holds(at, TurnSpan(text, at, inString) + rest)
  }

  lemma {:induction false} SpansHold(text: string, at: nat, inString: bool, holds: Spanned)
    requires at <= |text| && (IsReady(text, at, inString) || at == |text|) && IsKept(text, holds)
    ensures holds(at, Spans(text, at, inString))
    decreases |text| - at
  {
    if at < |text| {
      TurnIsReady(text, at, inString);
      var end, then' := TurnEnd(text, at, inString), Turn(text[at..], inString).1;
      SpansHold(text, end, then', holds);
      assert Spans(text, at, inString) == TurnSpan(text, at, inString) + Spans(text, end, then');
    }
  }

  lemma {:induction false} SpansAscend(text: string, at: nat, inString: bool)
    requires at <= |text|
    ensures AreAscending(at, Spans(text, at, inString))
    decreases |text| - at
  {
    if at < |text| {
      SpansAscend(text, TurnEnd(text, at, inString), Turn(text[at..], inString).1);
    }
  }

  /** The scan finds exactly the numbers outside strings, each as it was written,
      in the order they stand. */
  lemma LiteralsAreNumbers(text: string)
    ensures AreNumbers(|text|, Trace(text), 0, Spans(text, 0, false)) && AreAscending(0, Spans(text, 0, false))
    ensures AreTexts(text, Spans(text, 0, false), Literals(text, false))
  {
    SpansAscend(text, 0, false);
    var holds: Spanned := (at: nat, spans: seq<(nat, nat)>) => AreNumbers(|text|, Trace(text), at, spans);
    forall at: nat, inString, rest |
      at < |text| && IsReady(text, at, inString) && holds(TurnEnd(text, at, inString), rest)
      ensures holds(at, TurnSpan(text, at, inString) + rest)
    {
      TurnKeeps(text, at, inString, rest, TurnSpan(text, at, inString) + rest);
    }
    SpansHold(text, 0, false, holds);
    SpansAreTexts(text, 0, false);
    assert text[0..] == text;
  }

  /** A number from its first character on. */
  method Number(text: string, from: nat) returns (number: string, at: nat)
    requires from < |text|
    ensures at == from + 1 + Run(text[from + 1..]) && number == text[from..at]
  {
    number, at := [text[from]], from + 1;
    while at < |text| && InNumber(text[at])
      invariant from < at <= |text| && number == text[from..at]
      invariant Run(text[from + 1..]) == at - from - 1 + Run(text[at..])
    {
      assert text[at..][1..] == text[at + 1..];
      number := number + [text[at]];
      at := at + 1;
    }
  }

  method Numbers(text: string) returns (numbers: seq<string>)
    ensures numbers == Sorted(CompareTexts, Literals(text, false))
  {
    numbers := [];
    var at, inString := 0, false;
    while at < |text|
      invariant at <= |text| && numbers + Literals(text[at..], inString) == Literals(text, false)
    {
      ghost var s := text[at..];
      var c := text[at];
      assert s[1..] == text[at + 1..];
      if inString {
        if c == '\\' && at + 1 < |text| {
          assert s[2..] == text[at + 2..];
          at := at + 2;
        } else {
          inString := c != '"';
          at := at + 1;
        }
      } else if StartsNumber(c) {
        var number, end := Number(text, at);
        assert s[..end - at] == number && s[end - at..] == text[end..];
        numbers := numbers + [number];
        at := end;
      } else {
        inString := c == '"';
        at := at + 1;
      }
    }
    assert numbers + [] == numbers;
    numbers := Sorted(CompareTexts, numbers);
  }

  // Headers.

  function Get(headers: map<string, string>, name: string): Option<string> {
    if name in headers then Some(headers[name]) else None
  }

  method Collect(names: set<string>) returns (out: seq<string>)
    ensures forall n :: n in out <==> n in names
    ensures forall n :: multiset(out)[n] <= 1
  {
    out := [];
    var left := names;
    while left != {}
      invariant left <= names && forall n :: n in out <==> n in names - left
      invariant forall n :: multiset(out)[n] <= 1
      decreases |left|
    {
      var n :| n in left;
      assert n !in out;
      assert multiset(out)[n] == 0;
      out := out + [n];
      left := left - {n};
    }
  }

  function HeaderLines(names: seq<string>, want: map<string, string>, got: map<string, string>): seq<Line> {
    if names == [] then []
    else
      (if Get(want, names[0]) != Get(got, names[0])
       then [HeaderLine(names[0], Get(got, names[0]), Get(want, names[0]))]
       else []) + HeaderLines(names[1..], want, got)
  }

  lemma {:induction false} HeaderLinesIff(names: seq<string>, want: map<string, string>, got: map<string, string>)
    ensures HeaderLines(names, want, got) == [] <==> forall n :: n in names ==> Get(want, n) == Get(got, n)
  {
    if names != [] {
      HeaderLinesIff(names[1..], want, got);
      assert names == [names[0]] + names[1..];
    }
  }

  lemma HeadersSameIff(names: seq<string>, want: map<string, string>, got: map<string, string>)
    requires forall n :: n in names <==> n in want || n in got
    ensures HeaderLines(names, want, got) == [] <==> want == got
  {
    HeaderLinesIff(names, want, got);
    if forall n :: n in names ==> Get(want, n) == Get(got, n) {
      forall n
        ensures (n in want <==> n in got) && (n in want ==> want[n] == got[n])
      {
        assert n in names ==> Get(want, n) == Get(got, n);
      }
    }
  }

  // The body, and the verdict.

  const FIELDS: nat := 12

  function BodyLines(places: seq<Place>): (lines: seq<Line>)
    ensures |lines| == |places|
  {
    if places == [] then [] else [BodyLine(places[0])] + BodyLines(places[1..])
  }

  /** The first dozen places, and how many more there are. */
  function Shown(places: seq<Place>): (lines: seq<Line>)
    ensures lines == [] <==> places == []
    ensures |lines| <= FIELDS + 1
  {
    if |places| > FIELDS then BodyLines(places[..FIELDS]) + [MoreLine(|places| - FIELDS)] else BodyLines(places)
  }

  /** What makes two answers the same one: nothing about how they are laid out
      but how each number is written. */
  ghost predicate Agree(a: Answer, b: Answer) {
    && a.status == b.status
    && a.headers == b.headers
    && a.body == b.body
    && multiset(Literals(a.text, false)) == multiset(Literals(b.text, false))
  }

  // Which lines there are, and in what order.

  /** Where the bodies differ, the first dozen. */
  ghost function Dozen(expected: Answer, found: Answer): seq<Place> {
    var places := Walk("", Some(expected.body), Some(found.body));
    if |places| <= 12 then places else places[..12]
  }

  ghost predicate IsReported(line: Line, expected: Answer, found: Answer) {
    match line
    case StatusLine(got, want) => got == found.status && want == expected.status && got != want
    case HeaderLine(name, got, want) => got == Get(found.headers, name) && want == Get(expected.headers, name) && got != want
    case BodyLine(place) => place in Dozen(expected, found)
    case MoreLine(rest) => |Walk("", Some(expected.body), Some(found.body))| == 12 + rest && rest > 0
    case NumbersLine(got, want) =>
      && got == Sorted(CompareTexts, Literals(found.text, false))
      && want == Sorted(CompareTexts, Literals(expected.text, false))
      && got != want
    case WrittenLine(got, want) => got == found.text && want == expected.text && got != want && Agree(expected, found)
  }

  /** A line about the body says what is at its place in either one. */
  ghost predicate IsShown(place: Place, expected: Answer, found: Answer) {
    && Lookup(Some(expected.body), place.path) == place.want
    && Lookup(Some(found.body), place.path) == place.got
    && place.want != place.got
  }

  ghost function Rank(line: Line): nat {
    match line
    case StatusLine(_, _) => 0
    case HeaderLine(_, _, _) => 1
    case BodyLine(_) => 2
    case MoreLine(_) => 3
    case NumbersLine(_, _) => 4
    case WrittenLine(_, _) => 5
  }

  ghost predicate Comes(a: Line, b: Line) {
    || Rank(a) < Rank(b)
    || (a.HeaderLine? && b.HeaderLine? && CompareTexts(a.name, b.name) == Less)
    || (a.BodyLine? && b.BodyLine?)
  }

  ghost predicate AreInLine(lines: seq<Line>) {
    forall i, j :: 0 <= i < j < |lines| ==> Comes(lines[i], lines[j])
  }

  lemma LinesTogether(a: seq<Line>, b: seq<Line>)
    requires AreInLine(a) && AreInLine(b) && forall x, y :: x in a && y in b ==> Rank(x) < Rank(y)
    ensures AreInLine(a + b)
  {
    forall i, j | 0 <= i < j < |a + b|
      ensures Comes((a + b)[i], (a + b)[j])
    {
      if i < |a| <= j {
        assert a[i] in a && b[j - |a|] in b;
      }
    }
  }

  /** The places are what the lines are about from one of them on, one by one. */
  ghost predicate StandAt(lines: seq<Line>, from: nat, places: seq<Place>) {
    from + |places| <= |lines| && forall i :: 0 <= i < |places| ==> lines[from + i] == BodyLine(places[i])
  }

  ghost predicate IsStatus(line: Line) {
    line.StatusLine?
  }

  ghost predicate IsHeader(line: Line) {
    line.HeaderLine?
  }

  ghost predicate IsBody(line: Line) {
    line.BodyLine? || line.MoreLine?
  }

  ghost predicate IsNumbers(line: Line) {
    line.NumbersLine?
  }

  /** The lines of one kind are all those and no others. */
  ghost predicate AreAllOf(kind: Line -> bool, lines: seq<Line>, expected: Answer, found: Answer) {
    forall line :: line in lines <==> kind(line) && IsReported(line, expected, found)
  }

  lemma {:induction false} HeaderLinesAre(names: seq<string>, want: map<string, string>, got: map<string, string>)
    ensures forall line :: line in HeaderLines(names, want, got) <==>
              && line.HeaderLine? && line.name in names && line.gotHeader != line.wantHeader
              && line.gotHeader == Get(got, line.name) && line.wantHeader == Get(want, line.name)
  {
    if names != [] {
      HeaderLinesAre(names[1..], want, got);
      assert names == [names[0]] + names[1..];
    }
  }

  lemma {:induction false} HeaderLinesAreInLine(names: seq<string>, want: map<string, string>, got: map<string, string>)
    requires forall i, j :: 0 <= i < j < |names| ==> CompareTexts(names[i], names[j]) == Less
    ensures AreInLine(HeaderLines(names, want, got))
  {
    if names != [] {
      var rest := HeaderLines(names[1..], want, got);
      HeaderLinesAreInLine(names[1..], want, got);
      HeaderLinesAre(names[1..], want, got);
      forall i | 0 <= i < |rest|
        ensures rest[i].HeaderLine? && CompareTexts(names[0], rest[i].name) == Less
      {
        assert rest[i] in rest;
      }
    }
  }

  lemma TwiceIn(names: seq<string>, i: nat, j: nat)
    requires i < j < |names| && names[i] == names[j]
    ensures multiset(names)[names[i]] >= 2
  {
    assert names == names[..j] + names[j..];
    assert names[..j][i] in names[..j] && names[j..][0] in names[j..];
  }

  lemma OnceInOrder(names: seq<string>)
    requires InOrder(CompareTexts, names) && forall n :: multiset(names)[n] <= 1
    ensures forall i, j :: 0 <= i < j < |names| ==> CompareTexts(names[i], names[j]) == Less
  {
    TextsAreTotal();
    forall i, j | 0 <= i < j < |names|
      ensures names[i] != names[j]
    {
      if names[i] == names[j] {
        TwiceIn(names, i, j);
      }
    }
  }

  /** The lines of the headers, from their names in any order. */
  lemma HeaderLinesAreAll(names: seq<string>, expected: Answer, found: Answer)
    requires forall n :: n in names <==> n in expected.headers || n in found.headers
    requires forall n :: multiset(names)[n] <= 1
    ensures var lines := HeaderLines(Sorted(CompareTexts, names), expected.headers, found.headers);
            && (lines == [] <==> expected.headers == found.headers)
            && AreAllOf(IsHeader, lines, expected, found) && AreInLine(lines)
  {
    var want, got, sorted := expected.headers, found.headers, Sorted(CompareTexts, names);
    SortedHas(CompareTexts, names);
    AsMany(sorted, names);
    assert InOrder(CompareTexts, sorted) by {
      TextsAreTotal();
      TotalRanks(CompareTexts);
      SortedInOrder(CompareTexts, names);
    }
    OnceInOrder(sorted);
    HeadersSameIff(sorted, want, got);
    HeaderLinesAreInLine(sorted, want, got);
    HeaderLinesAre(sorted, want, got);
  }

  lemma {:induction false} BodyLinesAre(places: seq<Place>)
    ensures forall i :: 0 <= i < |places| ==> BodyLines(places)[i] == BodyLine(places[i])
  {
    if places != [] {
      BodyLinesAre(places[1..]);
    }
  }

  /** What a line about the body says is so: both bodies have it at that place. */
  lemma PlacesAreShown(expected: Answer, found: Answer)
    requires IsSorted(expected.body) && IsSorted(found.body)
    ensures forall place :: place in Dozen(expected, found) ==> IsShown(place, expected, found)
  {
    forall place | place in Dozen(expected, found)
      ensures IsShown(place, expected, found)
    {
      WalkShows("", Some(expected.body), Some(found.body), place);
      assert place.path[0..] == place.path;
      WalkNamesEachOnce("", Some(expected.body), Some(found.body));
    }
  }

  method CompareHeaders(expected: Answer, found: Answer) returns (lines: seq<Line>)
    ensures lines == [] <==> expected.headers == found.headers
    ensures AreAllOf(IsHeader, lines, expected, found) && AreInLine(lines)
  {
    var names := Collect(expected.headers.Keys + found.headers.Keys);
    HeaderLinesAreAll(names, expected, found);
    lines := HeaderLines(Sorted(CompareTexts, names), expected.headers, found.headers);
  }

  lemma NumbersSameIff(expected: Answer, found: Answer)
    ensures Sorted(CompareTexts, Literals(expected.text, false)) == Sorted(CompareTexts, Literals(found.text, false)) <==>
            multiset(Literals(expected.text, false)) == multiset(Literals(found.text, false))
  {
    assert IsTotal(CompareTexts) by {
      TextsAreTotal();
    }
    SortedSameIff(CompareTexts, Literals(expected.text, false), Literals(found.text, false));
  }

  method CompareNumbers(expected: Answer, found: Answer) returns (lines: seq<Line>)
    ensures lines == [] <==> multiset(Literals(expected.text, false)) == multiset(Literals(found.text, false))
    ensures AreAllOf(IsNumbers, lines, expected, found) && AreInLine(lines)
  {
    var want := Numbers(expected.text);
    var got := Numbers(found.text);
    NumbersSameIff(expected, found);
    lines := if want == got then [] else [NumbersLine(got, want)];
  }

  method CompareBodies(expected: Answer, found: Answer) returns (lines: seq<Line>)
    requires IsSorted(expected.body) && IsSorted(found.body)
    ensures lines == [] <==> expected.body == found.body
    ensures AreAllOf(IsBody, lines, expected, found) && AreInLine(lines)
    ensures var places := Dozen(expected, found);
            StandAt(lines, 0, places)
  {
    WalkNamesNothingIff("", Some(expected.body), Some(found.body));
    if expected.body == found.body {
      return [];
    }
    var places := Walk("", Some(expected.body), Some(found.body));
    BodyLinesAre(if |places| > FIELDS then places[..FIELDS] else places);
    lines := Shown(places);
  }

  /** Put together, they are all the lines of answers that do not agree. */
  lemma AllTogether(status: seq<Line>, headers: seq<Line>, bodies: seq<Line>, numbers: seq<Line>,
                    expected: Answer, found: Answer)
    requires AreAllOf(IsStatus, status, expected, found) && AreAllOf(IsHeader, headers, expected, found)
    requires AreAllOf(IsBody, bodies, expected, found) && AreAllOf(IsNumbers, numbers, expected, found)
    requires !Agree(expected, found)
    ensures forall line :: line in status + headers + bodies + numbers <==> IsReported(line, expected, found)
  {
    forall line
      ensures line in status + headers + bodies + numbers <==> IsReported(line, expected, found)
    {
      assert line in status + headers + bodies + numbers <==>
             line in status || line in headers || line in bodies || line in numbers;
    }
  }

  lemma InLineTogether(status: seq<Line>, headers: seq<Line>, bodies: seq<Line>, numbers: seq<Line>,
                       expected: Answer, found: Answer)
    requires AreAllOf(IsStatus, status, expected, found) && AreAllOf(IsHeader, headers, expected, found)
    requires AreAllOf(IsBody, bodies, expected, found) && AreAllOf(IsNumbers, numbers, expected, found)
    requires AreInLine(status) && AreInLine(headers) && AreInLine(bodies) && AreInLine(numbers)
    ensures AreInLine(status + headers + bodies + numbers)
  {
    LinesTogether(status, headers);
    LinesTogether(status + headers, bodies);
    LinesTogether(status + headers + bodies, numbers);
  }

  /** Of answers that agree there is one line, when their bytes differ. */
  lemma OneLine(expected: Answer, found: Answer)
    requires IsSorted(expected.body) && IsSorted(found.body) && Agree(expected, found)
    ensures Dozen(expected, found) == []
    ensures forall line :: IsReported(line, expected, found) <==>
              expected.text != found.text && line == WrittenLine(found.text, expected.text)
  {
    WalkNamesNothingIff("", Some(expected.body), Some(found.body));
    NumbersSameIff(expected, found);
  }

  /** The lines are all there is to say, each once and in its place. */
  ghost predicate SayAll(lines: seq<Line>, expected: Answer, found: Answer) {
    && (forall line :: line in lines <==> IsReported(line, expected, found))
    && AreInLine(lines)
    && exists k: nat :: StandAt(lines, k, Dozen(expected, found))
  }

  lemma AgreeingSay(expected: Answer, found: Answer)
    requires IsSorted(expected.body) && IsSorted(found.body) && Agree(expected, found)
    ensures SayAll(if expected.text != found.text then [WrittenLine(found.text, expected.text)] else [], expected, found)
  {
    OneLine(expected, found);
    var lines := if expected.text != found.text then [WrittenLine(found.text, expected.text)] else [];
    assert StandAt(lines, 0, Dozen(expected, found));
  }

  lemma DifferentSay(status: seq<Line>, headers: seq<Line>, bodies: seq<Line>, numbers: seq<Line>,
                     expected: Answer, found: Answer)
    requires AreAllOf(IsStatus, status, expected, found) && AreAllOf(IsHeader, headers, expected, found)
    requires AreAllOf(IsBody, bodies, expected, found) && AreAllOf(IsNumbers, numbers, expected, found)
    requires AreInLine(status) && AreInLine(headers) && AreInLine(bodies) && AreInLine(numbers)
    requires StandAt(bodies, 0, Dozen(expected, found)) && !Agree(expected, found)
    ensures SayAll(status + headers + bodies + numbers, expected, found)
  {
    AllTogether(status, headers, bodies, numbers, expected, found);
    InLineTogether(status, headers, bodies, numbers, expected, found);
    assert StandAt(status + headers + bodies + numbers, |status + headers|, Dozen(expected, found));
  }

  method CompareStatus(expected: Answer, found: Answer) returns (lines: seq<Line>)
    ensures lines == [] <==> expected.status == found.status
    ensures AreAllOf(IsStatus, lines, expected, found) && AreInLine(lines)
  {
    lines := if expected.status != found.status then [StatusLine(found.status, expected.status)] else [];
  }

  /** The verdict is what it should be, and the lines are all there is to say. */
  method Compare(expected: Answer, found: Answer) returns (d: Difference)
    requires IsSorted(expected.body) && IsSorted(found.body)
    ensures d.verdict == Different <==> !Agree(expected, found)
    ensures d.verdict == Same <==> Agree(expected, found) && expected.text == found.text
    ensures d.lines == [] <==> d.verdict == Same
    ensures SayAll(d.lines, expected, found)
  {
    var status := CompareStatus(expected, found);
    var headers := CompareHeaders(expected, found);
    var bodies := CompareBodies(expected, found);
    var numbers := CompareNumbers(expected, found);
    var lines := status + headers + bodies + numbers;
    if lines != [] {
      DifferentSay(status, headers, bodies, numbers, expected, found);
      return Difference(Different, lines);
    }
    AgreeingSay(expected, found);
    if expected.text != found.text {
      return Difference(Written, [WrittenLine(found.text, expected.text)]);
    }
    return Difference(Same, []);
  }
}
