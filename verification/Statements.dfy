/** A file of SQL cut into statements, against an automaton that reads it one
    character at a time.

    `word` is which characters an identifier goes on with, the letters and
    digits of Unicode and the underscore. `extra` is how many characters more
    than its own a reader goes past a tag. It is none for one that reads dollar
    quotes as they are written, and the code goes by bytes. */
module Statements {
  import opened Wrappers

  predicate IsSane(word: char -> bool) {
    !word('$') && !word('\'') && !word(';') && !word('-')
  }

  // The automaton, after section 4.1.2.4 of the PostgreSQL manual.

  datatype State =
    | Code(last: Option<char>)
    | Opening(tag: string)
    | Line
    | Quote
    | Late(tag: string, left: nat)
    | Body(tag: string, since: string)
    | Past(left: nat)

  predicate InCode(st: State) {
    st.Code? || st.Opening?
  }

  /** Whether a dollar after this character would carry on an identifier. */
  predicate CarriesOn(word: char -> bool, last: Option<char>) {
    last.Some? && (word(last.value) || last.value == '$')
  }

  predicate EndsWith(s: string, tail: string) {
    |tail| <= |s| && s[|s| - |tail|..] == tail
  }

  function FromCode(word: char -> bool, last: Option<char>, c: char): State {
    if c == '-' && last == Some('-') then Line
    else if c == '\'' then Quote
    else if c == '$' && !CarriesOn(word, last) then Opening("$")
    else Code(Some(c))
  }

  /** A body whose opening tag has just been read. */
  function Began(extra: string -> nat, tag: string): State {
    if extra(tag) == 0 then Body(tag, "") else Late(tag, extra(tag))
  }

  /** A body whose closing tag has just been read. */
  function Ended(extra: string -> nat, tag: string, c: char): State {
    if extra(tag) == 0 then Code(Some(c)) else Past(extra(tag))
  }

  /** A dash that was gone past does not begin a comment. */
  function Passed(c: char): Option<char> {
    if c == '-' then None else Some(c)
  }

  function Next(word: char -> bool, extra: string -> nat, st: State, c: char): State {
    match st
    case Code(last) => FromCode(word, last, c)
    case Opening(tag) =>
      if c == '$' then Began(extra, tag + "$")
      else if word(c) then Opening(tag + [c])
      else FromCode(word, if tag == [] then None else Some(tag[|tag| - 1]), c)
    case Line => if c == '\n' then Code(Some(c)) else Line
    case Quote => if c == '\'' then Code(Some(c)) else Quote
    case Late(tag, left) => if left <= 1 then Body(tag, "") else Late(tag, left - 1)
    case Body(tag, since) => if EndsWith(since + [c], tag) then Ended(extra, tag, c) else Body(tag, since + [c])
    case Past(left) => if left <= 1 then Code(Passed(c)) else Past(left - 1)
  }

  function StateAt(word: char -> bool, extra: string -> nat, text: string, i: nat): State
    requires i <= |text|
  {
    if i == 0 then Code(None) else Next(word, extra, StateAt(word, extra, text, i - 1), text[i - 1])
  }

  /** A semicolon that ends a statement. */
  predicate IsSemi(word: char -> bool, extra: string -> nat, text: string, i: nat) {
    i < |text| && text[i] == ';' && InCode(StateAt(word, extra, text, i))
  }

  /** Past the line breaks from here. */
  function EndOfLines(text: string, i: nat): (r: nat)
    requires i <= |text|
    ensures i <= r <= |text|
    ensures forall j :: i <= j < r ==> text[j] == '\n' || text[j] == '\r'
    decreases |text| - i
  {
    if i < |text| && (text[i] == '\n' || text[i] == '\r') then EndOfLines(text, i + 1) else i
  }

  predicate AreWithin(text: string, positions: seq<nat>) {
    forall i :: 0 <= i < |positions| ==> positions[i] < |text|
  }

  /** The semicolons that end statements before a position, in order. */
  function Semis(word: char -> bool, extra: string -> nat, text: string, until: nat): (r: seq<nat>)
    requires until <= |text|
    ensures AreWithin(text, r)
  {
    if until == 0 then []
    else if IsSemi(word, extra, text, until - 1) then Semis(word, extra, text, until - 1) + [until - 1]
    else Semis(word, extra, text, until - 1)
  }

  /** Where the statement after these semicolons starts. */
  function Start(text: string, semis: seq<nat>): (r: nat)
    requires AreWithin(text, semis)
    ensures r <= |text|
  {
    if semis == [] then 0 else EndOfLines(text, semis[|semis| - 1] + 1)
  }

  /** The statements up to these semicolons, line breaks and all. */
  function Pieces(text: string, semis: seq<nat>): seq<string>
    requires AreWithin(text, semis)
  {
    if semis == [] then []
    else
      var front := semis[..|semis| - 1];
      var from, to := Start(text, front), Start(text, semis);
      Pieces(text, front) + [if from <= to then text[from..to] else []]
  }

  function Joined(pieces: seq<string>): string {
    if pieces == [] then [] else Joined(pieces[..|pieces| - 1]) + pieces[|pieces| - 1]
  }

  // Reading a tag.

  /** Where a tag being read ends, when it does. */
  function TagEnd(word: char -> bool, text: string, look: nat): (r: Option<nat>)
    requires look <= |text|
    ensures r.Some? ==> look < r.value <= |text| && text[r.value - 1] == '$'
    decreases |text| - look
  {
    if look == |text| then None
    else if text[look] == '$' then Some(look + 1)
    else if word(text[look]) then TagEnd(word, text, look + 1)
    else None
  }

  function Before(text: string, at: nat): Option<char>
    requires at <= |text|
  {
    if at == 0 then None else Some(text[at - 1])
  }

  /** The tag that opens here, if one does. */
  function TagAt(word: char -> bool, text: string, at: nat): (r: Option<string>)
    requires at < |text|
    ensures r.Some? ==> 2 <= |r.value| && IsAt(text, at, r.value) && text[at + |r.value| - 1] == '$'
  {
    if text[at] != '$' || CarriesOn(word, Before(text, at)) then None
    else
      match TagEnd(word, text, at + 1)
      case Some(end) => Some(text[at..end])
      case None => None
  }

  predicate IsAt(text: string, i: nat, what: string) {
    i + |what| <= |text| && text[i..i + |what|] == what
  }

  /** The first place from here on where a tag is written. */
  method Find(text: string, from: nat, what: string) returns (r: Option<nat>)
    requires what != []
    ensures r.Some? ==> from <= r.value && IsAt(text, r.value, what)
    ensures forall i :: from <= i && (r.None? || i < r.value) ==> !IsAt(text, i, what)
  {
    var at := from;
    while at + |what| <= |text|
      invariant from <= at
      invariant forall i :: from <= i < at ==> !IsAt(text, i, what)
    {
      if text[at..at + |what|] == what {
        return Some(at);
      }
      at := at + 1;
    }
    return None;
  }

  // Where the reader looks at a character the automaton is in code, or reading
  // a tag that will not end, or at the break that ends a comment.

  ghost predicate Settled(word: char -> bool, extra: string -> nat, text: string, at: nat) {
    at < |text| ==>
      var st := StateAt(word, extra, text, at);
      && (|| st == Code(Before(text, at))
          || (st == Code(None) && Before(text, at) == Some('-'))
          || (st.Opening? && st.tag != [] && Some(st.tag[|st.tag| - 1]) == Before(text, at) && TagEnd(word, text, at).None?)
          || (st == Line && text[at] == '\n'))
      && (text[at] == '-' ==> st == Code(None) || Before(text, at) != Some('-'))
  }

  /** A character that no word goes on with is read as in code. */
  lemma SettledStep(word: char -> bool, extra: string -> nat, text: string, at: nat)
    requires IsSane(word) && at < |text| && Settled(word, extra, text, at) && !word(text[at])
    ensures text[at] != '\n' ==> InCode(StateAt(word, extra, text, at))
    ensures StateAt(word, extra, text, at + 1)
         == if text[at] == '-' then Code(Some('-')) else FromCode(word, Before(text, at), text[at])
  {
  }

  lemma WordStep(word: char -> bool, extra: string -> nat, text: string, at: nat)
    requires IsSane(word) && at < |text| && Settled(word, extra, text, at) && word(text[at])
    ensures Settled(word, extra, text, at + 1)
  {
  }

  method PassLine(word: char -> bool, extra: string -> nat, text: string, at: nat) returns (to: nat)
    requires IsSane(word) && Settled(word, extra, text, at)
    requires at + 1 < |text| && text[at] == '-' && text[at + 1] == '-'
    ensures at < to <= |text| && Settled(word, extra, text, to) && Semis(word, extra, text, to) == Semis(word, extra, text, at)
  {
    SettledStep(word, extra, text, at);
    assert Semis(word, extra, text, at + 1) == Semis(word, extra, text, at);
    assert StateAt(word, extra, text, at + 2) == Line;
    to := at + 2;
    while to < |text| && text[to] != '\n'
      invariant at + 2 <= to <= |text|
      invariant StateAt(word, extra, text, to) == Line && Semis(word, extra, text, to) == Semis(word, extra, text, at)
    {
      to := to + 1;
    }
  }

  method PassQuote(word: char -> bool, extra: string -> nat, text: string, at: nat) returns (to: nat)
    requires IsSane(word) && Settled(word, extra, text, at)
    requires at < |text| && text[at] == '\''
    ensures at < to <= |text| && Settled(word, extra, text, to) && Semis(word, extra, text, to) == Semis(word, extra, text, at)
  {
    SettledStep(word, extra, text, at);
    to := at + 1;
    while to < |text|
      invariant at + 1 <= to <= |text|
      invariant StateAt(word, extra, text, to) == Quote && Semis(word, extra, text, to) == Semis(word, extra, text, at)
    {
      to := to + 1;
      if text[to - 1] == '\'' {
        break;
      }
    }
  }

  lemma Snoc(text: string, at: nat, look: nat)
    requires at <= look < |text|
    ensures text[at..look] + [text[look]] == text[at..look + 1]
  {
  }

  /** The text since a body began ends with its tag where the tag is written. */
  lemma TagEndsThere(text: string, from: nat, to: nat, tag: string)
    requires from <= to < |text| && tag != []
    ensures text[from..to] + [text[to]] == text[from..to + 1]
    ensures EndsWith(text[from..to] + [text[to]], tag) <==>
              from + |tag| <= to + 1 && IsAt(text, to + 1 - |tag|, tag)
  {
    var since := text[from..to + 1];
    assert text[from..to] + [text[to]] == since;
    if from + |tag| <= to + 1 {
      assert since[|since| - |tag|..] == text[to + 1 - |tag|..to + 1];
    }
  }

  /** The first place where this is written from a position on. */
  ghost predicate IsFirst(text: string, from: nat, what: string, end: nat) {
    from <= end && IsAt(text, end, what) && forall i :: from <= i < end ==> !IsAt(text, i, what)
  }

  /** This is not written anywhere between. */
  ghost predicate IsNotWithin(text: string, from: nat, to: nat, what: string) {
    forall i :: from <= i && i + |what| <= to ==> !IsAt(text, i, what)
  }

  lemma NotWithinLess(text: string, from: nat, to: nat, what: string)
    requires IsNotWithin(text, from, to + 1, what)
    ensures IsNotWithin(text, from, to, what)
    ensures from + |what| <= to + 1 ==> !IsAt(text, to + 1 - |what|, what)
  {
  }

  lemma NotWithinFirst(text: string, from: nat, what: string, end: nat)
    requires what != [] && IsFirst(text, from, what, end)
    ensures IsNotWithin(text, from, end + |what| - 1, what)
  {
  }

  lemma LastOfTag(text: string, at: nat, end: nat, tag: string)
    requires tag != [] && IsAt(text, at, tag) && IsAt(text, end, tag)
    ensures text[end + |tag| - 1] == text[at + |tag| - 1]
  {
    assert text[at..at + |tag|][|tag| - 1] == text[end..end + |tag|][|tag| - 1];
  }

  ghost predicate IsNowhere(text: string, from: nat, what: string) {
    forall i :: from <= i ==> !IsAt(text, i, what)
  }

  function Least(a: nat, b: nat): nat {
    if a < b then a else b
  }

  /** Where a reader is after a body: so many characters past the first closing
      tag found from here on, or at the end. */
  ghost predicate IsStop(text: string, search: nat, tag: string, more: nat, to: nat) {
    || (exists end: nat :: IsFirst(text, search, tag, end) && to == Least(end + |tag| + more, |text|))
    || (IsNowhere(text, search, tag) && to == |text|)
  }

  method Stop(text: string, from: nat, tag: string, more: nat) returns (to: nat)
    requires tag != [] && from <= |text|
    ensures from <= to <= |text| && IsStop(text, from + more, tag, more, to)
  {
    var end := Find(text, from + more, tag);
    if end.None? {
      return |text|;
    }
    assert IsFirst(text, from + more, tag, end.value);
    to := Least(end.value + |tag| + more, |text|);
  }

  // Reading on from anywhere. What is read says nothing of the characters before,
  // so these are about anything that holds of where an automaton is and is kept
  // as it reads.

  type Trace = (nat, State, seq<nat>) -> bool

  function Behind(text: string, i: nat, st: State, semis: seq<nat>): seq<nat>
    requires i < |text|
  {
    if text[i] == ';' && InCode(st) then semis + [i] else semis
  }

  ghost predicate IsTrace(word: char -> bool, extra: string -> nat, text: string, holds: Trace) {
    forall i: nat, st, semis {:trigger holds(i, st, semis), Next(word, extra, st, text[i])} ::
      i < |text| && holds(i, st, semis) ==> holds(i + 1, Next(word, extra, st, text[i]), Behind(text, i, st, semis))
  }

  ghost function TraceOf(word: char -> bool, extra: string -> nat, text: string): Trace {
    (i: nat, st: State, semis: seq<nat>) => i <= |text| && StateAt(word, extra, text, i) == st && Semis(word, extra, text, i) == semis
  }

  lemma AutomatonIsTrace(word: char -> bool, extra: string -> nat, text: string)
    ensures IsTrace(word, extra, text, TraceOf(word, extra, text))
  {
  }

  lemma {:induction false} TagIsRead(word: char -> bool, extra: string -> nat, text: string, holds: Trace,
                                     at: nat, look: nat, end: nat, semis: seq<nat>)
    requires IsSane(word) && IsTrace(word, extra, text, holds)
    requires at < look <= |text| && holds(look, Opening(text[at..look]), semis) && TagEnd(word, text, look) == Some(end)
    ensures holds(end, Began(extra, text[at..end]), semis)
    decreases |text| - look
  {
    Snoc(text, at, look);
    var next := Next(word, extra, Opening(text[at..look]), text[look]);
    if text[look] == '$' {
      assert next == Began(extra, text[at..look + 1]);
    } else {
      assert next == Opening(text[at..look + 1]);
      TagIsRead(word, extra, text, holds, at, look + 1, end, semis);
    }
  }

  /** Nothing is read in the characters gone past after the opening tag. */
  lemma {:induction false} LateIsRead(word: char -> bool, extra: string -> nat, text: string, holds: Trace,
                                      from: nat, tag: string, left: nat, k: nat, semis: seq<nat>)
    requires IsTrace(word, extra, text, holds) && k <= left && from + k <= |text|
    requires holds(from, if left == 0 then Body(tag, "") else Late(tag, left), semis)
    ensures holds(from + k, if k == left then Body(tag, "") else Late(tag, left - k), semis)
    decreases k
  {
    if k > 0 {
      var next := Next(word, extra, Late(tag, left), text[from]);
      assert next == if left == 1 then Body(tag, "") else Late(tag, left - 1);
      LateIsRead(word, extra, text, holds, from + 1, tag, left - 1, k - 1, semis);
    }
  }

  /** Nor in those after the closing one, and code goes on behind them. */
  lemma {:induction false} PastIsRead(word: char -> bool, extra: string -> nat, text: string, holds: Trace,
                                      from: nat, left: nat, k: nat, semis: seq<nat>)
    requires IsTrace(word, extra, text, holds) && k <= left && 0 < from && from + k <= |text|
    requires holds(from, if left == 0 then Code(Passed(text[from - 1])) else Past(left), semis)
    ensures holds(from + k, if k == left then Code(Passed(text[from + k - 1])) else Past(left - k), semis)
    decreases k
  {
    if k > 0 {
      var next := Next(word, extra, Past(left), text[from]);
      assert next == if left == 1 then Code(Passed(text[from])) else Past(left - 1);
      PastIsRead(word, extra, text, holds, from + 1, left - 1, k - 1, semis);
    }
  }

  lemma {:induction false} BodyIsRead(word: char -> bool, extra: string -> nat, text: string, holds: Trace,
                                      from: nat, tag: string, to: nat, semis: seq<nat>)
    requires IsTrace(word, extra, text, holds) && from <= to <= |text| && tag != []
    requires holds(from, Body(tag, ""), semis) && IsNotWithin(text, from, to, tag)
    ensures holds(to, Body(tag, text[from..to]), semis)
    decreases (to)
  {
    if from == to {
      assert text[from..to] == "";
    } else {
      var last := to - 1;
      NotWithinLess(text, from, last, tag);
      BodyIsRead(word, extra, text, holds, from, tag, last, semis);
      TagEndsThere(text, from, last, tag);
      var next := Next(word, extra, Body(tag, text[from..last]), text[last]);
      assert next == Body(tag, text[from..to]);
    }
  }

  lemma BodyCloses(word: char -> bool, extra: string -> nat, text: string, holds: Trace,
                   from: nat, tag: string, end: nat, semis: seq<nat>)
    requires IsTrace(word, extra, text, holds) && tag != [] && IsFirst(text, from, tag, end)
    requires holds(from, Body(tag, ""), semis)
    ensures holds(end + |tag|, Ended(extra, tag, text[end + |tag| - 1]), semis)
  {
    var last := end + |tag| - 1;
    NotWithinFirst(text, from, tag, end);
    BodyIsRead(word, extra, text, holds, from, tag, last, semis);
    TagEndsThere(text, from, last, tag);
    var next := Next(word, extra, Body(tag, text[from..last]), text[last]);
    assert next == Ended(extra, tag, text[last]);
  }

  lemma BodyNeverCloses(word: char -> bool, extra: string -> nat, text: string, holds: Trace,
                        from: nat, tag: string, semis: seq<nat>) returns (st: State)
    requires IsTrace(word, extra, text, holds) && from <= |text| && tag != []
    requires holds(from, Began(extra, tag), semis) && IsNowhere(text, from + extra(tag), tag)
    ensures holds(|text|, st, semis)
  {
    var more := extra(tag);
    if from + more <= |text| {
      LateIsRead(word, extra, text, holds, from, tag, more, more, semis);
      BodyIsRead(word, extra, text, holds, from + more, tag, |text|, semis);
      st := Body(tag, text[from + more..|text|]);
    } else {
      LateIsRead(word, extra, text, holds, from, tag, more, |text| - from, semis);
      st := Late(tag, more - (|text| - from));
    }
  }

  lemma BodyIsPassed(word: char -> bool, extra: string -> nat, text: string, holds: Trace,
                     from: nat, tag: string, end: nat, to: nat, semis: seq<nat>) returns (st: State)
    requires IsTrace(word, extra, text, holds) && from <= |text| && tag != []
    requires holds(from, Began(extra, tag), semis) && IsFirst(text, from + extra(tag), tag, end)
    requires text[end + |tag| - 1] == '$' && to == Least(end + |tag| + extra(tag), |text|)
    ensures holds(to, st, semis) && (to < |text| ==> st == Code(Passed(text[to - 1])))
  {
    var more, past := extra(tag), end + |tag|;
    LateIsRead(word, extra, text, holds, from, tag, more, more, semis);
    BodyCloses(word, extra, text, holds, from + more, tag, end, semis);
    PastIsRead(word, extra, text, holds, past, more, to - past, semis);
    st := if to - past == more then Code(Passed(text[to - 1])) else Past(more - (to - past));
  }

  /** The body of a quote, for the automaton: nothing in it, and code after. */
  lemma StopIsRead(word: char -> bool, extra: string -> nat, text: string, holds: Trace,
                   from: nat, tag: string, to: nat, semis: seq<nat>) returns (st: State)
    requires IsTrace(word, extra, text, holds) && |tag| <= from <= |text| && to <= |text| && tag != []
    requires holds(from, Began(extra, tag), semis) && IsAt(text, from - |tag|, tag) && text[from - 1] == '$'
    requires IsStop(text, from + extra(tag), tag, extra(tag), to)
    ensures holds(to, st, semis) && (to < |text| ==> 0 < to && st == Code(Passed(text[to - 1])))
  {
    var search := from + extra(tag);
    if IsNowhere(text, search, tag) && to == |text| {
      st := BodyNeverCloses(word, extra, text, holds, from, tag, semis);
    } else {
      var end: nat :| IsFirst(text, search, tag, end) && to == Least(end + |tag| + extra(tag), |text|);
      LastOfTag(text, from - |tag|, end, tag);
      st := BodyIsPassed(word, extra, text, holds, from, tag, end, to, semis);
    }
  }

  /** A quote as written ends where the reader does that goes by so many more
      characters if and only if there are none more, or the text is over there. */
  lemma StopsAlikeIff(text: string, from: nat, tag: string, more: nat, written: nat, read: nat)
    requires tag != [] && from <= |text|
    requires IsStop(text, from, tag, 0, written) && IsStop(text, from + more, tag, more, read)
    ensures written == read <==> more == 0 || written == |text|
    ensures written <= read <= |text|
  {
    var search := from + more;
    if first: nat :| IsFirst(text, from, tag, first) && written == Least(first + |tag|, |text|) {
      if end: nat :| IsFirst(text, search, tag, end) && read == Least(end + |tag| + more, |text|) {
        assert first <= end;
        assert more == 0 ==> end == first;
      } else {
        assert more == 0 ==> !IsAt(text, first, tag);
      }
    } else {
      forall end: nat
        ensures !IsFirst(text, search, tag, end)
      {
      }
    }
  }

  lemma SettledAfter(word: char -> bool, extra: string -> nat, text: string, to: nat)
    requires 0 < to <= |text| && (to < |text| ==> StateAt(word, extra, text, to) == Code(Passed(text[to - 1])))
    ensures Settled(word, extra, text, to)
  {
  }

  lemma TagBegins(word: char -> bool, extra: string -> nat, text: string, at: nat)
    requires IsSane(word) && Settled(word, extra, text, at) && at < |text|
    requires text[at] == '$' && !CarriesOn(word, Before(text, at))
    ensures StateAt(word, extra, text, at + 1) == Opening(text[at..at + 1])
    ensures Semis(word, extra, text, at + 1) == Semis(word, extra, text, at)
  {
    SettledStep(word, extra, text, at);
    assert text[at..at + 1] == "$";
  }

  lemma QuoteIsPassed(word: char -> bool, extra: string -> nat, text: string, holds: Trace,
                      at: nat, tag: string, to: nat, semis: seq<nat>) returns (st: State)
    requires IsSane(word) && IsTrace(word, extra, text, holds)
    requires at < |text| && holds(at + 1, Opening(text[at..at + 1]), semis)
    requires TagAt(word, text, at) == Some(tag) && to <= |text|
    requires IsStop(text, at + |tag| + extra(tag), tag, extra(tag), to)
    ensures holds(to, st, semis) && (to < |text| ==> 0 < to && st == Code(Passed(text[to - 1])))
  {
    TagIsRead(word, extra, text, holds, at, at + 1, at + |tag|, semis);
    st := StopIsRead(word, extra, text, holds, at + |tag|, tag, to, semis);
  }

  lemma QuoteIsRead(word: char -> bool, extra: string -> nat, text: string, at: nat, tag: string, to: nat)
    requires IsSane(word) && Settled(word, extra, text, at) && at < to <= |text|
    requires TagAt(word, text, at) == Some(tag)
    requires IsStop(text, at + |tag| + extra(tag), tag, extra(tag), to)
    ensures Settled(word, extra, text, to) && Semis(word, extra, text, to) == Semis(word, extra, text, at)
  {
    TagBegins(word, extra, text, at);
    AutomatonIsTrace(word, extra, text);
    var semis := Semis(word, extra, text, at);
    var st := QuoteIsPassed(word, extra, text, TraceOf(word, extra, text), at, tag, to, semis);
    SettledAfter(word, extra, text, to);
  }

  /** A dollar opens a quote that is passed whole, or is code. */
  method PassDollar(word: char -> bool, extra: string -> nat, text: string, at: nat) returns (to: nat)
    requires IsSane(word) && Settled(word, extra, text, at)
    requires at < |text| && text[at] == '$'
    ensures at < to <= |text| && Settled(word, extra, text, to) && Semis(word, extra, text, to) == Semis(word, extra, text, at)
    ensures TagAt(word, text, at).Some? ==>
              var tag := TagAt(word, text, at).value; IsStop(text, at + |tag| + extra(tag), tag, extra(tag), to)
  {
    match TagAt(word, text, at)
    case None =>
      DollarIsCode(word, extra, text, at);
      to := at + 1;
    case Some(tag) =>
      to := Stop(text, at + |tag|, tag, extra(tag));
      QuoteIsRead(word, extra, text, at, tag, to);
  }

  lemma DollarIsCode(word: char -> bool, extra: string -> nat, text: string, at: nat)
    requires IsSane(word) && Settled(word, extra, text, at)
    requires at < |text| && text[at] == '$' && TagAt(word, text, at).None?
    ensures Settled(word, extra, text, at + 1) && Semis(word, extra, text, at + 1) == Semis(word, extra, text, at)
  {
    SettledStep(word, extra, text, at);
  }

  /** The line breaks after a statement are code. */
  lemma {:induction false} BreaksAreCode(word: char -> bool, extra: string -> nat, text: string, at: nat)
    requires IsSane(word) && 0 < at <= |text| && StateAt(word, extra, text, at) == Code(Before(text, at))
    requires Before(text, at) != Some('-')
    ensures var to := EndOfLines(text, at);
            && StateAt(word, extra, text, to) == Code(Before(text, to))
            && Settled(word, extra, text, to)
            && Semis(word, extra, text, to) == Semis(word, extra, text, at)
    decreases |text| - at
  {
    if at < |text| && (text[at] == '\n' || text[at] == '\r') {
      BreaksAreCode(word, extra, text, at + 1);
    }
  }

  lemma SemiIsRead(word: char -> bool, extra: string -> nat, text: string, at: nat)
    requires IsSane(word) && Settled(word, extra, text, at) && at < |text| && text[at] == ';'
    ensures Settled(word, extra, text, EndOfLines(text, at + 1))
    ensures Semis(word, extra, text, EndOfLines(text, at + 1)) == Semis(word, extra, text, at) + [at]
  {
    SettledStep(word, extra, text, at);
    BreaksAreCode(word, extra, text, at + 1);
  }

  method PassSemi(text: string, at: nat) returns (to: nat)
    requires at < |text| && text[at] == ';'
    ensures to == EndOfLines(text, at + 1)
  {
    to := at + 1;
    while to < |text| && (text[to] == '\n' || text[to] == '\r')
      invariant at + 1 <= to <= |text| && EndOfLines(text, to) == EndOfLines(text, at + 1)
    {
      to := to + 1;
    }
  }

  method PassOther(word: char -> bool, extra: string -> nat, text: string, at: nat) returns (to: nat)
    requires IsSane(word) && Settled(word, extra, text, at) && at < |text| && text[at] != ';'
    ensures at < to <= |text| && Settled(word, extra, text, to) && Semis(word, extra, text, to) == Semis(word, extra, text, at)
  {
    if text[at] == '-' && at + 1 < |text| && text[at + 1] == '-' {
      to := PassLine(word, extra, text, at);
    } else if text[at] == '\'' {
      to := PassQuote(word, extra, text, at);
    } else if text[at] == '$' {
      to := PassDollar(word, extra, text, at);
    } else {
      to := at + 1;
      if word(text[at]) {
        WordStep(word, extra, text, at);
      } else {
        SettledStep(word, extra, text, at);
      }
    }
  }

  lemma Extends(text: string, start: nat, at: nat, to: nat)
    requires start <= at <= to <= |text|
    ensures text[start..at] + text[at..to] == text[start..to]
  {
  }

  lemma PieceEnds(text: string, semis: seq<nat>, at: nat, statement: string)
    requires at < |text| && AreWithin(text, semis)
    requires Start(text, semis) <= at && statement == text[Start(text, semis)..at]
    ensures Start(text, semis + [at]) == EndOfLines(text, at + 1)
    ensures Pieces(text, semis + [at]) == Pieces(text, semis) + [statement + text[at..EndOfLines(text, at + 1)]]
  {
    assert (semis + [at])[..|semis|] == semis;
    Extends(text, Start(text, semis), at, EndOfLines(text, at + 1));
  }

  /** The pieces, and what is left after the last semicolon. */
  function Whole(text: string, semis: seq<nat>): seq<string>
    requires AreWithin(text, semis)
  {
    Pieces(text, semis) + (if Start(text, semis) < |text| then [text[Start(text, semis)..]] else [])
  }

  /** The statements read before a position, and the one being read. */
  ghost predicate Cuts(text: string, semis: seq<nat>, at: nat, out: seq<string>, statement: string) {
    && at <= |text| && AreWithin(text, semis)
    && Start(text, semis) <= at
    && statement == text[Start(text, semis)..at]
    && out == Pieces(text, semis)
  }

  lemma CutsOn(text: string, semis: seq<nat>, at: nat, out: seq<string>, statement: string, to: nat)
    requires Cuts(text, semis, at, out, statement) && at <= to <= |text|
    ensures Cuts(text, semis, to, out, statement + text[at..to])
  {
    Extends(text, Start(text, semis), at, to);
  }

  lemma CutsHere(text: string, semis: seq<nat>, at: nat, out: seq<string>, statement: string)
    requires Cuts(text, semis, at, out, statement) && at < |text|
    ensures var to := EndOfLines(text, at + 1);
            Cuts(text, semis + [at], to, out + [statement + text[at..to]], "")
  {
    PieceEnds(text, semis, at, statement);
    var to := EndOfLines(text, at + 1);
    assert text[to..to] == "";
  }

  lemma CutsAll(text: string, semis: seq<nat>, out: seq<string>, statement: string)
    requires Cuts(text, semis, |text|, out, statement)
    ensures out + (if statement != "" then [statement] else []) == Whole(text, semis)
  {
    var start := Start(text, semis);
    assert text[start..|text|] == text[start..];
  }

  /** How much space a character takes in UTF-8. */
  function Width(c: char): nat {
    var n := c as int;
    if n < 0x80 then 1 else if n < 0x800 then 2 else if n < 0x1_0000 then 3 else 4
  }

  /** The table of section 3 of RFC 3629: a character of one, two, three or four
      octets has up to 7, 11, 16 or 21 bits. */
  lemma WidthIs(c: char)
    ensures 1 <= Width(c) <= 4
    ensures Width(c) <= 1 <==> c as int <= 0x7f
    ensures Width(c) <= 2 <==> c as int <= 0x7ff
    ensures Width(c) <= 3 <==> c as int <= 0xffff
  {
  }

  function Bytes(s: string): (n: nat)
    ensures n >= |s|
  {
    if s == [] then 0 else Bytes(s[..|s| - 1]) + Width(s[|s| - 1])
  }

  /** The code counts a tag in bytes and the text in characters. */
  function Surplus(tag: string): nat {
    Bytes(tag) - |tag|
  }

  function AsWritten(tag: string): nat {
    0
  }

  /** The statements of a text are its pieces at exactly the semicolons that an
      automaton finds in code which goes past a tag by its bytes, and what is left
      after the last. */
  method Split(word: char -> bool, text: string) returns (out: seq<string>)
    requires IsSane(word)
    ensures out == Whole(text, Semis(word, Surplus, text, |text|))
  {
    out := [];
    var statement := "";
    var at := 0;
    while at < |text|
      invariant at <= |text| && Settled(word, Surplus, text, at)
      invariant Cuts(text, Semis(word, Surplus, text, at), at, out, statement)
    {
      var to;
      if text[at] == ';' {
        CutsHere(text, Semis(word, Surplus, text, at), at, out, statement);
        SemiIsRead(word, Surplus, text, at);
        to := PassSemi(text, at);
        out := out + [statement + text[at..to]];
        statement := "";
      } else {
        to := PassOther(word, Surplus, text, at);
        CutsOn(text, Semis(word, Surplus, text, at), at, out, statement, to);
        statement := statement + text[at..to];
      }
      at := to;
    }
    CutsAll(text, Semis(word, Surplus, text, |text|), out, statement);
    if statement != "" {
      out := out + [statement];
    }
  }

  // Where going by bytes makes no difference.

  ghost predicate StaysInBody(word: char -> bool, text: string, from: nat) {
    forall i :: from <= i < |text| ==> StateAt(word, AsWritten, text, i).Body?
  }

  /** Every quote of the text has a tag of one byte characters or goes on to the
      end of the text. */
  ghost predicate IsEven(word: char -> bool, text: string) {
    forall j: nat :: j <= |text| && StateAt(word, AsWritten, text, j).Body?
                     && StateAt(word, AsWritten, text, j).since == "" ==>
                       Surplus(StateAt(word, AsWritten, text, j).tag) == 0 || StaysInBody(word, text, j)
  }

  /** Both automata in one state, and in no body that they leave differently. */
  ghost predicate AreTogether(written: State, read: State) {
    written == read && !read.Late? && !read.Past? && (read.Body? ==> Surplus(read.tag) == 0)
  }

  /** Both in one body that does not end before the text. */
  ghost predicate AreBuried(written: State, read: State) {
    && written.Body? && written.tag != []
    && (|| (read.Late? && read.tag == written.tag)
        || (read.Body? && read.tag == written.tag && EndsWith(written.since, read.since)))
  }

  lemma TogetherStep(word: char -> bool, st: State, c: char)
    requires AreTogether(st, st)
    ensures var written, read := Next(word, AsWritten, st, c), Next(word, Surplus, st, c);
            || AreTogether(written, read)
            || (written.Body? && written.since == "" && Surplus(written.tag) > 0 && AreBuried(written, read))
  {
  }

  lemma EndsWithMore(since: string, tail: string, c: char, tag: string)
    requires EndsWith(since, tail)
    ensures EndsWith(since + [c], tail + [c])
    ensures EndsWith(tail + [c], tag) ==> EndsWith(since + [c], tag)
  {
    var more, less := since + [c], tail + [c];
    assert more[|more| - |less|..] == less;
    if EndsWith(less, tag) {
      assert more[|more| - |tag|..] == less[|less| - |tag|..];
    }
  }

  lemma BuriedStep(word: char -> bool, written: State, read: State, c: char)
    requires AreBuried(written, read) && Next(word, AsWritten, written, c).Body?
    ensures AreBuried(Next(word, AsWritten, written, c), Next(word, Surplus, read, c))
  {
    if read.Body? {
      EndsWithMore(written.since, read.since, c, written.tag);
    }
  }

  ghost predicate GoAlike(word: char -> bool, text: string, i: nat)
    requires i <= |text|
  {
    var written, read := StateAt(word, AsWritten, text, i), StateAt(word, Surplus, text, i);
    AreTogether(written, read) || (AreBuried(written, read) && StaysInBody(word, text, i))
  }

  lemma AlikeStep(word: char -> bool, text: string, i: nat)
    requires IsEven(word, text) && i + 1 < |text| && GoAlike(word, text, i)
    ensures GoAlike(word, text, i + 1)
  {
    var written, read := StateAt(word, AsWritten, text, i), StateAt(word, Surplus, text, i);
    assert StateAt(word, AsWritten, text, i + 1) == Next(word, AsWritten, written, text[i]);
    assert StateAt(word, Surplus, text, i + 1) == Next(word, Surplus, read, text[i]);
    if AreTogether(written, read) {
      TogetherStep(word, read, text[i]);
    } else {
      BuriedStep(word, written, read, text[i]);
    }
  }

  lemma {:induction false} AlikeUntil(word: char -> bool, text: string, i: nat)
    requires IsEven(word, text) && i <= |text|
    ensures i < |text| ==> GoAlike(word, text, i)
    ensures Semis(word, Surplus, text, i) == Semis(word, AsWritten, text, i)
  {
    if i > 0 {
      AlikeUntil(word, text, i - 1);
      if i < |text| {
        AlikeStep(word, text, i - 1);
      }
    }
  }

  /** Such a text is cut at the semicolons of a reader that takes dollar quotes as
      they are written. */
  lemma EvenTextsAreCutAsWritten(word: char -> bool, text: string)
    requires IsEven(word, text)
    ensures Whole(text, Semis(word, Surplus, text, |text|)) == Whole(text, Semis(word, AsWritten, text, |text|))
  {
    AlikeUntil(word, text, |text|);
  }

  // Where it does: a tag with one letter of two bytes.

  const WIDE := "$\U{E9}$"

  lemma WideTag()
    ensures Surplus(WIDE) == 1
  {
    assert WIDE[..2] == "$\U{E9}";
    assert "$\U{E9}"[..1] == "$";
    assert Bytes("$") == 1;
  }

  lemma WideTagOpens(word: char -> bool, text: string)
    requires IsSane(word) && word('\U{E9}') && WIDE <= text
    ensures TagAt(word, text, 0) == Some(WIDE)
  {
    assert text[1] == WIDE[1] && text[2] == WIDE[2];
    assert TagEnd(word, text, 2) == Some(3);
    assert TagEnd(word, text, 1) == Some(3);
    assert text[0] == WIDE[0] && text[0..3] == WIDE;
  }

  /** A text that is one quote up to here, a semicolon and one more character. */
  lemma CutAfterQuote(word: char -> bool, extra: string -> nat, text: string, to: nat)
    requires IsSane(word) && word('\U{E9}') && WIDE <= text
    requires IsStop(text, 3 + extra(WIDE), WIDE, extra(WIDE), to) && 0 < to <= |text|
    ensures Semis(word, extra, text, to) == []
    ensures to < |text| && text[to] == ';' ==> Semis(word, extra, text, to + 1) == [to]
  {
    WideTagOpens(word, text);
    QuoteIsRead(word, extra, text, 0, WIDE, to);
    if to < |text| && text[to] == ';' {
      SettledStep(word, extra, text, to);
    }
  }

  lemma StopsPast(text: string, search: nat, more: nat, end: nat)
    requires IsFirst(text, search, WIDE, end)
    ensures IsStop(text, search, WIDE, more, Least(end + 3 + more, |text|))
  {
  }

  /** The reader goes one character past the quote, and the semicolon there with
      it. */
  lemma WideTagSwallowsASemicolon(word: char -> bool)
    requires IsSane(word) && word('\U{E9}')
    ensures var text := WIDE + "a" + WIDE + ";x";
            && Semis(word, AsWritten, text, |text|) == [7]
            && Semis(word, Surplus, text, |text|) == []
  {
    var text := WIDE + "a" + WIDE + ";x";
    WideTag();
    assert text[4..7] == WIDE && text[3] == 'a';
    StopsPast(text, 3, 0, 4);
    CutAfterQuote(word, AsWritten, text, 7);
    assert text[7] == ';' && text[8] == 'x';
    assert Semis(word, AsWritten, text, 8) == [7];
    StopsPast(text, 4, 1, 4);
    CutAfterQuote(word, Surplus, text, 8);
  }

  /** With nothing between the tags the reader begins to look inside the closing
      one, and takes all the rest for the body. */
  lemma WideTagMissesItsEnd(word: char -> bool)
    requires IsSane(word) && word('\U{E9}')
    ensures var text := WIDE + WIDE + ";x";
            && Semis(word, AsWritten, text, |text|) == [6]
            && Semis(word, Surplus, text, |text|) == []
  {
    var text := WIDE + WIDE + ";x";
    WideTag();
    assert text[3..6] == WIDE;
    StopsPast(text, 3, 0, 3);
    CutAfterQuote(word, AsWritten, text, 6);
    assert text[6] == ';' && text[7] == 'x';
    assert Semis(word, AsWritten, text, 7) == [6];
    forall i: nat | 4 <= i
      ensures !IsAt(text, i, WIDE)
    {
      if i + 3 <= |text| {
        assert text[i..i + 3][0] == text[i] && text[i..i + 3][2] == text[i + 2];
        assert text[4] == '\U{E9}' && text[7] == 'x';
      }
    }
    assert IsStop(text, 4, WIDE, 1, 8);
    CutAfterQuote(word, Surplus, text, 8);
  }

  // What the cutting means.

  /** The list is every semicolon in code, and nothing else, in order. */
  lemma {:induction false} SemisAreAll(word: char -> bool, extra: string -> nat, text: string, until: nat)
    requires until <= |text|
    ensures forall i: nat :: i in Semis(word, extra, text, until) <==> i < until && IsSemi(word, extra, text, i)
    ensures forall i, j :: 0 <= i < j < |Semis(word, extra, text, until)| ==>
                             Semis(word, extra, text, until)[i] < Semis(word, extra, text, until)[j]
  {
    if until > 0 {
      SemisAreAll(word, extra, text, until - 1);
      var front := Semis(word, extra, text, until - 1);
      assert forall i :: 0 <= i < |front| ==> front[i] in front;
    }
  }

  lemma JoinedSnoc(pieces: seq<string>, piece: string)
    ensures Joined(pieces + [piece]) == Joined(pieces) + piece
  {
    assert (pieces + [piece])[..|pieces|] == pieces;
  }

  ghost predicate AreSemicolons(text: string, semis: seq<nat>) {
    && AreWithin(text, semis)
    && (forall i :: 0 <= i < |semis| ==> text[semis[i]] == ';')
    && (forall i, j :: 0 <= i < j < |semis| ==> semis[i] < semis[j])
  }

  lemma {:induction false} PiecesJoin(text: string, semis: seq<nat>)
    requires AreSemicolons(text, semis)
    ensures Joined(Pieces(text, semis)) == text[..Start(text, semis)]
  {
    if semis != [] {
      var last := |semis| - 1;
      var front := semis[..last];
      PiecesJoin(text, front);
      var from, end := Start(text, front), Start(text, semis);
      assert from <= semis[last] by {
        assert text[semis[last]] == ';';
      }
      JoinedSnoc(Pieces(text, front), text[from..end]);
      Extends(text, 0, from, end);
    }
  }

  lemma Halves(text: string, start: nat)
    requires start <= |text|
    ensures text[..start] + text[start..] == text
  {
  }

  lemma WholeJoins(text: string, semis: seq<nat>)
    requires AreSemicolons(text, semis)
    ensures Joined(Whole(text, semis)) == text
  {
    PiecesJoin(text, semis);
    Halves(text, Start(text, semis));
    JoinedSnoc(Pieces(text, semis), text[Start(text, semis)..]);
    assert Pieces(text, semis) + [] == Pieces(text, semis);
  }

  lemma SemisAreSemicolons(word: char -> bool, extra: string -> nat, text: string)
    ensures AreSemicolons(text, Semis(word, extra, text, |text|))
  {
    SemisAreAll(word, extra, text, |text|);
    var semis := Semis(word, extra, text, |text|);
    forall i | 0 <= i < |semis|
      ensures semis[i] < |text| && text[semis[i]] == ';'
    {
      assert semis[i] in semis;
    }
  }

  /** Nothing is lost: the statements put back together are the file. */
  lemma StatementsJoin(word: char -> bool, extra: string -> nat, text: string)
    ensures Joined(Whole(text, Semis(word, extra, text, |text|))) == text
  {
    SemisAreSemicolons(word, extra, text);
    WholeJoins(text, Semis(word, extra, text, |text|));
  }

  // What the automaton takes for what, said of the text.

  /** No statement ends between two positions. */
  ghost predicate HasNoSemi(word: char -> bool, extra: string -> nat, text: string, from: nat, to: nat) {
    forall k: nat :: from <= k < to ==> !IsSemi(word, extra, text, k)
  }

  /** Nothing is before this that a dash or a dollar would go on from. */
  ghost predicate IsFresh(word: char -> bool, extra: string -> nat, text: string, at: nat) {
    && at < |text| && StateAt(word, extra, text, at).Code?
    && StateAt(word, extra, text, at).last != Some('-') && !CarriesOn(word, StateAt(word, extra, text, at).last)
  }

  lemma {:induction false} LineGoesOn(word: char -> bool, extra: string -> nat, text: string, from: nat, to: nat)
    requires from <= to <= |text| && StateAt(word, extra, text, from) == Line
    requires forall k :: from <= k < to ==> text[k] != '\n'
    ensures StateAt(word, extra, text, to) == Line && HasNoSemi(word, extra, text, from, to)
    decreases (to)
  {
    if from < to {
      LineGoesOn(word, extra, text, from, to - 1);
    }
  }

  /** Two dashes hide everything up to the line break, which is code again. */
  lemma CommentsHide(word: char -> bool, extra: string -> nat, text: string, at: nat, end: nat)
    requires IsFresh(word, extra, text, at) && at + 2 <= end <= |text|
    requires text[at] == '-' && text[at + 1] == '-' && forall k :: at + 2 <= k < end ==> text[k] != '\n'
    ensures HasNoSemi(word, extra, text, at, end)
    ensures end < |text| && text[end] == '\n' ==> StateAt(word, extra, text, end + 1) == Code(Some('\n'))
  {
    assert StateAt(word, extra, text, at + 1) == Code(Some('-'));
    assert StateAt(word, extra, text, at + 2) == Line;
    LineGoesOn(word, extra, text, at + 2, end);
  }

  lemma {:induction false} QuoteGoesOn(word: char -> bool, extra: string -> nat, text: string, from: nat, to: nat)
    requires from <= to <= |text| && StateAt(word, extra, text, from) == Quote
    requires forall k :: from <= k < to ==> text[k] != '\''
    ensures StateAt(word, extra, text, to) == Quote && HasNoSemi(word, extra, text, from, to)
    decreases (to)
  {
    if from < to {
      QuoteGoesOn(word, extra, text, from, to - 1);
    }
  }

  /** A quote hides everything up to the next one, after which is code again. */
  lemma QuotesHide(word: char -> bool, extra: string -> nat, text: string, at: nat, end: nat)
    requires IsSane(word) && at < |text| && InCode(StateAt(word, extra, text, at)) && at < end <= |text|
    requires text[at] == '\'' && forall k :: at < k < end ==> text[k] != '\''
    ensures HasNoSemi(word, extra, text, at, end)
    ensures end < |text| && text[end] == '\'' ==> StateAt(word, extra, text, end + 1) == Code(Some('\''))
  {
    assert StateAt(word, extra, text, at + 1) == Quote;
    QuoteGoesOn(word, extra, text, at + 1, end);
  }

  /** A tag is two dollars and what an identifier goes on with between them. */
  predicate IsTag(word: char -> bool, tag: string) {
    && 2 <= |tag| && tag[0] == '$' && tag[|tag| - 1] == '$'
    && forall k :: 0 < k < |tag| - 1 ==> word(tag[k])
  }

  lemma {:induction false} TagGoesOn(word: char -> bool, text: string, holds: Trace, at: nat, tag: string, look: nat,
                                     semis: seq<nat>)
    requires IsSane(word) && IsTrace(word, AsWritten, text, holds)
    requires IsTag(word, tag) && IsAt(text, at, tag) && 1 <= look < |tag|
    requires holds(at + 1, Opening(tag[..1]), semis)
    ensures holds(at + look, Opening(tag[..look]), semis)
    decreases look
  {
    if look > 1 {
      TagGoesOn(word, text, holds, at, tag, look - 1, semis);
      assert text[at + look - 1] == tag[look - 1];
      assert tag[..look - 1] + [tag[look - 1]] == tag[..look];
      var next := Next(word, AsWritten, Opening(tag[..look - 1]), text[at + look - 1]);
      assert next == Opening(tag[..look]);
    }
  }

  lemma TagCloses(word: char -> bool, text: string, holds: Trace, at: nat, tag: string, semis: seq<nat>)
    requires IsSane(word) && IsTrace(word, AsWritten, text, holds)
    requires IsTag(word, tag) && IsAt(text, at, tag) && holds(at + 1, Opening(tag[..1]), semis)
    ensures holds(at + |tag|, Body(tag, ""), semis)
  {
    var last := |tag| - 1;
    TagGoesOn(word, text, holds, at, tag, last, semis);
    assert text[at + last] == tag[last];
    assert tag[..last] + "$" == tag;
    var next := Next(word, AsWritten, Opening(tag[..last]), text[at + last]);
    assert next == Body(tag, "");
  }

  /** A dollar quote hides everything up to its own tag again, after which is code. */
  lemma DollarsHide(word: char -> bool, text: string, at: nat, tag: string, end: nat)
    requires IsSane(word) && IsFresh(word, AsWritten, text, at) && IsTag(word, tag)
    requires IsAt(text, at, tag) && IsFirst(text, at + |tag|, tag, end)
    ensures Semis(word, AsWritten, text, end + |tag|) == Semis(word, AsWritten, text, at)
    ensures StateAt(word, AsWritten, text, end + |tag|) == Code(Some('$'))
  {
    AutomatonIsTrace(word, AsWritten, text);
    var holds, semis := TraceOf(word, AsWritten, text), Semis(word, AsWritten, text, at);
    assert text[at] == tag[0] && tag[..1] == "$";
    assert StateAt(word, AsWritten, text, at + 1) == Opening("$");
    TagCloses(word, text, holds, at, tag, semis);
    BodyCloses(word, AsWritten, text, holds, at + |tag|, tag, end, semis);
    LastOfTag(text, at, end, tag);
    assert text[at + |tag| - 1] == tag[|tag| - 1];
  }

  /** A dollar that an identifier goes on with opens nothing. */
  lemma IdentifiersHaveDollars(word: char -> bool, extra: string -> nat, text: string, at: nat)
    requires at < |text| && text[at] == '$' && StateAt(word, extra, text, at).Code?
    requires CarriesOn(word, StateAt(word, extra, text, at).last)
    ensures StateAt(word, extra, text, at + 1) == Code(Some('$'))
  {
  }

  /** In a text with no dash, quote or dollar every semicolon ends a statement. */
  lemma {:induction false} PlainTextsAreCode(word: char -> bool, extra: string -> nat, text: string, at: nat)
    requires at <= |text| && forall k :: 0 <= k < |text| ==> text[k] != '-' && text[k] != '\'' && text[k] != '$'
    ensures StateAt(word, extra, text, at).Code?
    ensures at < |text| && text[at] == ';' ==> IsSemi(word, extra, text, at)
  {
    if at > 0 {
      PlainTextsAreCode(word, extra, text, at - 1);
    }
  }
}
