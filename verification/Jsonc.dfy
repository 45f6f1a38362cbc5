/** Import maps are JSON with comments and trailing commas, and one pass makes
    them JSON. The reference is two passes that each do one thing: comments
    out, then trailing commas out. */
module Jsonc {
  import opened Wrappers
  import opened Texts

  // The reference.

  /** From the line break that ends a line comment on. */
  function AfterLine(s: string): (r: string)
    ensures |r| <= |s|
  {
    if s == [] || s[0] == '\n' then s else AfterLine(s[1..])
  }

  /** From past the mark that ends a block comment on; nothing when it never
      ends. */
  function AfterBlock(s: string): (r: string)
    ensures |r| <= |s|
  {
    if |s| < 2 then []
    else if s[0] == '*' && s[1] == '/' then s[2..]
    else AfterBlock(s[1..])
  }

  predicate StartsLine(s: string) {
    |s| >= 2 && s[0] == '/' && s[1] == '/'
  }

  predicate StartsBlock(s: string) {
    |s| >= 2 && s[0] == '/' && s[1] == '*'
  }

  /** How much of a text goes through in one step while inside a string or
      outside one: an escape is two characters. */
  function Width(s: string, inside: bool): (n: nat)
    requires s != []
    ensures 1 <= n <= |s|
  {
    if inside && s[0] == '\\' && |s| > 1 then 2 else 1
  }

  /** Whether the next character is inside a string. */
  predicate StillInside(s: string, inside: bool)
    requires s != []
  {
    inside != (s[0] == '"')
  }

  /** The first pass: no comments, except in strings. */
  function Strip(s: string, inside: bool): string
    decreases |s|
  {
    if s == [] then []
    else if !inside && StartsLine(s) then Strip(AfterLine(s[2..]), false)
    else if !inside && StartsBlock(s) then Strip(AfterBlock(s[2..]), false)
    else s[..Width(s, inside)] + Strip(s[Width(s, inside)..], StillInside(s, inside))
  }

  /** The next character that is not white space, if there is one. */
  function Significant(s: string): Option<char> {
    var t := TrimStart(IsWhite, s);
    if t == [] then None else Some(t[0])
  }

  predicate Closes(s: string) {
    Significant(s) == Some('}') || Significant(s) == Some(']')
  }

  /** The second pass: no comma right before what closes, except in strings. */
  function Drop(s: string, inside: bool): string
    decreases |s|
  {
    if s == [] then []
    else if !inside && s[0] == ',' && Closes(s[1..]) then Drop(s[1..], false)
    else s[..Width(s, inside)] + Drop(s[Width(s, inside)..], StillInside(s, inside))
  }

  // The one pass.

  method SkipLine(src: string, from: nat) returns (at: nat)
    requires from <= |src|
    ensures from <= at <= |src| && src[at..] == AfterLine(src[from..])
  {
    at := from;
    while at < |src| && src[at] != '\n'
      invariant from <= at <= |src| && AfterLine(src[at..]) == AfterLine(src[from..])
    {
      assert src[at..][1..] == src[at + 1..];
      at := at + 1;
    }
  }

  method SkipBlock(src: string, from: nat) returns (at: nat)
    requires from <= |src|
    ensures from <= at <= |src| && src[at..] == AfterBlock(src[from..])
  {
    at := from;
    while at + 1 < |src| && !(src[at] == '*' && src[at + 1] == '/')
      invariant from <= at <= |src| && AfterBlock(src[at..]) == AfterBlock(src[from..])
    {
      assert src[at..][1..] == src[at + 1..];
      at := at + 1;
    }
    if at + 1 < |src| {
      assert src[at..][2..] == src[at + 2..];
    }
    at := if at + 2 < |src| then at + 2 else |src|;
  }

  /** The next character that is neither white space nor in a comment. */
  function Next(s: string): Option<char>
    decreases |s|
  {
    if s == [] then None
    else if IsWhite(s[0]) then Next(s[1..])
    else if StartsLine(s) then Next(AfterLine(s[2..]))
    else if StartsBlock(s) then Next(AfterBlock(s[2..]))
    else Some(s[0])
  }

  /** Looks past white space and comments from `from`. */
  method Peek(src: string, from: nat) returns (at: nat)
    requires from <= |src|
    ensures from <= at <= |src|
    ensures Next(src[from..]) == if at < |src| then Some(src[at]) else None
  {
    at := from;
    while true
      invariant from <= at <= |src| && Next(src[at..]) == Next(src[from..])
      decreases |src| - at
    {
      while at < |src| && IsWhite(src[at])
        invariant from <= at <= |src| && Next(src[at..]) == Next(src[from..])
      {
        assert src[at..][1..] == src[at + 1..];
        at := at + 1;
      }
      if at + 1 < |src| && src[at] == '/' && src[at + 1] == '/' {
        assert src[at..][2..] == src[at + 2..];
        at := SkipLine(src, at + 2);
      } else if at + 1 < |src| && src[at] == '/' && src[at + 1] == '*' {
        assert src[at..][2..] == src[at + 2..];
        at := SkipBlock(src, at + 2);
      } else {
        return;
      }
    }
  }

  predicate Trailing(s: string) {
    s != [] && s[0] == ',' && (Next(s[1..]) == Some('}') || Next(s[1..]) == Some(']'))
  }

  /** What one pass does: at a comma it looks ahead in the text itself. */
  function OnePass(s: string, inside: bool): string
    decreases |s|
  {
    if s == [] then []
    else if !inside && StartsLine(s) then OnePass(AfterLine(s[2..]), false)
    else if !inside && StartsBlock(s) then OnePass(AfterBlock(s[2..]), false)
    else if !inside && Trailing(s) then OnePass(s[1..], false)
    else s[..Width(s, inside)] + OnePass(s[Width(s, inside)..], StillInside(s, inside))
  }

  lemma GoesThrough(out: string, s: string, inside: bool)
    requires s != []
    requires inside || (!StartsLine(s) && !StartsBlock(s) && !Trailing(s))
    ensures out + OnePass(s, inside)
         == out + s[..Width(s, inside)] + OnePass(s[Width(s, inside)..], StillInside(s, inside))
  {
  }

  /** What is out, and one pass over what is left, come to this. */
  ghost predicate ComesTo(text: string, at: nat, inside: bool, out: string, all: string) {
    at <= |text| && out + OnePass(text[at..], inside) == all
  }

  /** One character of a string, or two where the first escapes the second. */
  method PassInside(text: string, at: nat, out: string, ghost all: string)
    returns (at': nat, inside: bool, out': string)
    requires at < |text| && ComesTo(text, at, true, out, all)
    ensures at < at' && ComesTo(text, at', inside, out', all)
  {
    var c := text[at];
    ghost var s := text[at..];
    GoesThrough(out, s, true);
    if c == '\\' && at + 1 < |text| {
      assert s[2..] == text[at + 2..] && s[..2] == [c, text[at + 1]];
      at', inside, out' := at + 2, true, out + [c, text[at + 1]];
    } else {
      assert s[1..] == text[at + 1..] && s[..1] == [c];
      at', inside, out' := at + 1, c != '"', out + [c];
    }
  }

  /** A character that begins no comment. A comma goes when it trails. */
  method PassOutside(text: string, at: nat, out: string, ghost all: string)
    returns (at': nat, inside: bool, out': string)
    requires at < |text| && ComesTo(text, at, false, out, all)
    requires !StartsLine(text[at..]) && !StartsBlock(text[at..])
    ensures at < at' && ComesTo(text, at', inside, out', all)
  {
    var c := text[at];
    ghost var s := text[at..];
    assert s[1..] == text[at + 1..] && s[..1] == [c];
    var trailing := false;
    if c == ',' {
      var peek := Peek(text, at + 1);
      trailing := peek < |text| && (text[peek] == '}' || text[peek] == ']');
    }
    at', inside, out' := at + 1, false, out;
    if !trailing {
      GoesThrough(out, s, false);
      inside, out' := c == '"', out + [c];
    }
  }

  method PassComment(text: string, at: nat) returns (at': nat)
    requires at < |text| && (StartsLine(text[at..]) || StartsBlock(text[at..]))
    ensures at < at' <= |text| && OnePass(text[at'..], false) == OnePass(text[at..], false)
  {
    assert text[at..][2..] == text[at + 2..];
    if text[at + 1] == '/' {
      at' := SkipLine(text, at + 2);
    } else {
      at' := SkipBlock(text, at + 2);
    }
  }

  method Plain(text: string) returns (out: string)
    ensures out == OnePass(text, false)
    ensures out == Drop(Strip(text, false), false)
  {
    out := "";
    var at, inside := 0, false;
    while at < |text|
      invariant ComesTo(text, at, inside, out, OnePass(text, false))
      decreases |text| - at
    {
      if inside {
        at, inside, out := PassInside(text, at, out, OnePass(text, false));
      } else if at + 1 < |text| && text[at] == '/' && (text[at + 1] == '/' || text[at + 1] == '*') {
        at := PassComment(text, at);
      } else {
        at, inside, out := PassOutside(text, at, out, OnePass(text, false));
      }
    }
    OnePassIsBoth(text, false);
  }

  // One pass is the two.

  lemma {:induction false} SignificantAfterStrip(s: string)
    ensures Significant(Strip(s, false)) == Next(s)
    decreases |s|
  {
    if s == [] {
    } else if IsWhite(s[0]) {
      SignificantAfterStrip(s[1..]);
      assert Strip(s, false) == [s[0]] + Strip(s[1..], false);
    } else if StartsLine(s) {
      SignificantAfterStrip(AfterLine(s[2..]));
    } else if StartsBlock(s) {
      SignificantAfterStrip(AfterBlock(s[2..]));
    }
  }

  lemma StripStep(s: string, inside: bool)
    requires s != [] && (inside || (!StartsLine(s) && !StartsBlock(s)))
    ensures var w := Width(s, inside);
            var t := Strip(s, inside);
            && t != [] && t[0] == s[0]
            && Width(t, inside) == w
            && t[..w] == s[..w]
            && t[w..] == Strip(s[w..], StillInside(s, inside))
  {
    var w := Width(s, inside);
    var rest := Strip(s[w..], StillInside(s, inside));
    assert Strip(s, inside) == s[..w] + rest;
    assert |s| == 1 ==> rest == [];
  }

  /** One pass that looks ahead is comments out and then trailing commas out. */
  lemma {:induction false} OnePassIsBoth(s: string, inside: bool)
    ensures OnePass(s, inside) == Drop(Strip(s, inside), inside)
    decreases |s|
  {
    if s == [] {
    } else if !inside && StartsLine(s) {
      OnePassIsBoth(AfterLine(s[2..]), false);
    } else if !inside && StartsBlock(s) {
      OnePassIsBoth(AfterBlock(s[2..]), false);
    } else {
      StripStep(s, inside);
      OnePassIsBoth(s[Width(s, inside)..], StillInside(s, inside));
      if !inside && s[0] == ',' {
        SignificantAfterStrip(s[1..]);
      }
    }
  }

  // What a pass keeps.

  /** The characters of the string literals, quotes and escapes with them. */
  function Quoted(s: string, inside: bool): string
    decreases |s|
  {
    if s == [] then []
    else if !inside && StartsLine(s) then Quoted(AfterLine(s[2..]), false)
    else if !inside && StartsBlock(s) then Quoted(AfterBlock(s[2..]), false)
    else
      var w := Width(s, inside);
      (if inside || s[0] == '"' then s[..w] else []) + Quoted(s[w..], StillInside(s, inside))
  }

  /** The same of a text that is JSON already, where a slash is a slash. */
  function QuotedInJson(s: string, inside: bool): string
    decreases |s|
  {
    if s == [] then []
    else
      var w := Width(s, inside);
      (if inside || s[0] == '"' then s[..w] else []) + QuotedInJson(s[w..], StillInside(s, inside))
  }

  lemma OnePassStep(s: string, inside: bool)
    requires s != []
    requires inside || (!StartsLine(s) && !StartsBlock(s) && !Trailing(s))
    ensures var w := Width(s, inside);
            var t := OnePass(s, inside);
            && t != [] && t[0] == s[0]
            && Width(t, inside) == w
            && t[..w] == s[..w]
            && t[w..] == OnePass(s[w..], StillInside(s, inside))
  {
    var w := Width(s, inside);
    var rest := OnePass(s[w..], StillInside(s, inside));
    assert OnePass(s, inside) == s[..w] + rest;
    assert |s| == 1 ==> rest == [];
  }

  /** String literals come through as they were written, all of them and
      nothing else as one. */
  lemma {:induction false} LiteralsSurvive(s: string, inside: bool)
    ensures QuotedInJson(OnePass(s, inside), inside) == Quoted(s, inside)
    decreases |s|
  {
    if s == [] {
    } else if !inside && StartsLine(s) {
      LiteralsSurvive(AfterLine(s[2..]), false);
    } else if !inside && StartsBlock(s) {
      LiteralsSurvive(AfterBlock(s[2..]), false);
    } else if !inside && Trailing(s) {
      LiteralsSurvive(s[1..], false);
      assert [] + Quoted(s[1..], false) == Quoted(s[1..], false);
    } else {
      OnePassStep(s, inside);
      LiteralsSurvive(s[Width(s, inside)..], StillInside(s, inside));
    }
  }

  /** `a` is `b` with characters left out. */
  predicate Within(a: string, b: string)
    decreases |b|
  {
    || a == []
    || (b != [] && a[0] == b[0] && Within(a[1..], b[1..]))
    || (b != [] && Within(a, b[1..]))
  }

  lemma {:induction false} WithinMore(a: string, front: string, b: string)
    requires Within(a, b)
    ensures Within(a, front + b)
  {
    if front != [] {
      WithinMore(a, front[1..], b);
      assert (front + b)[1..] == front[1..] + b;
    } else {
      assert front + b == b;
    }
  }

  lemma {:induction false} WithinBoth(a: string, front: string, b: string)
    requires Within(a, b)
    ensures Within(front + a, front + b)
  {
    if front != [] {
      WithinBoth(a, front[1..], b);
      assert (front + b)[1..] == front[1..] + b && (front + a)[1..] == front[1..] + a;
    } else {
      assert front + b == b && front + a == a;
    }
  }

  lemma {:induction false} LineIsSuffix(s: string)
    ensures s == s[..|s| - |AfterLine(s)|] + AfterLine(s)
  {
    if s != [] && s[0] != '\n' {
      LineIsSuffix(s[1..]);
    }
  }

  lemma {:induction false} BlockIsSuffix(s: string)
    ensures s == s[..|s| - |AfterBlock(s)|] + AfterBlock(s)
  {
    if |s| >= 2 && !(s[0] == '*' && s[1] == '/') {
      BlockIsSuffix(s[1..]);
    }
  }

  lemma WithinRest(out: string, s: string, rest: string)
    requires Within(out, rest) && |rest| <= |s| && s[|s| - |rest|..] == rest
    ensures Within(out, s)
  {
    WithinMore(out, s[..|s| - |rest|], rest);
    assert s == s[..|s| - |rest|] + rest;
  }

  lemma SuffixOfRest(s: string, rest: string)
    requires |s| >= 2 && |rest| <= |s| - 2 && s[2..][|s| - 2 - |rest|..] == rest
    ensures s[|s| - |rest|..] == rest
  {
  }

  lemma WithinStep(out: string, s: string, w: nat)
    requires w <= |s| && Within(out, s[w..])
    ensures Within(s[..w] + out, s)
  {
    WithinBoth(out, s[..w], s[w..]);
    assert s == s[..w] + s[w..];
  }

  /** Nothing is added and nothing changes places. */
  lemma {:induction false} OnlyLeavesOut(s: string, inside: bool)
    ensures Within(OnePass(s, inside), s)
    decreases |s|
  {
    if s == [] {
    } else if !inside && StartsLine(s) {
      OnlyLeavesOut(AfterLine(s[2..]), false);
      LineIsSuffix(s[2..]);
      SuffixOfRest(s, AfterLine(s[2..]));
      WithinRest(OnePass(s, false), s, AfterLine(s[2..]));
    } else if !inside && StartsBlock(s) {
      OnlyLeavesOut(AfterBlock(s[2..]), false);
      BlockIsSuffix(s[2..]);
      SuffixOfRest(s, AfterBlock(s[2..]));
      WithinRest(OnePass(s, false), s, AfterBlock(s[2..]));
    } else if !inside && Trailing(s) {
      OnlyLeavesOut(s[1..], false);
      WithinRest(OnePass(s, false), s, s[1..]);
    } else {
      var w := Width(s, inside);
      OnlyLeavesOut(s[w..], StillInside(s, inside));
      WithinStep(OnePass(s[w..], StillInside(s, inside)), s, w);
    }
  }

  /** No comment starts and no comma trails outside a string. */
  predicate IsJson(s: string, inside: bool)
    decreases |s|
  {
    s != [] ==>
      && (inside || (!StartsLine(s) && !StartsBlock(s) && !Trailing(s)))
      && IsJson(s[Width(s, inside)..], StillInside(s, inside))
  }

  lemma ShortensBy(s: string, inside: bool)
    requires s != [] && (inside || (!StartsLine(s) && !StartsBlock(s) && !Trailing(s)))
    ensures var w, rest := Width(s, inside), OnePass(s[Width(s, inside)..], StillInside(s, inside));
            && OnePass(s, inside) == s[..w] + rest && |OnePass(s, inside)| == w + |rest|
            && (rest == s[w..] ==> OnePass(s, inside) == s)
  {
    assert s == s[..Width(s, inside)] + s[Width(s, inside)..];
  }

  lemma {:induction false} ShortensIff(s: string, inside: bool)
    ensures |OnePass(s, inside)| <= |s|
    ensures |OnePass(s, inside)| == |s| <==> IsJson(s, inside)
    ensures IsJson(s, inside) ==> OnePass(s, inside) == s
    decreases |s|
  {
    if s == [] {
    } else if !inside && StartsLine(s) {
      ShortensIff(AfterLine(s[2..]), false);
    } else if !inside && StartsBlock(s) {
      ShortensIff(AfterBlock(s[2..]), false);
    } else if !inside && Trailing(s) {
      ShortensIff(s[1..], false);
    } else {
      ShortensBy(s, inside);
      ShortensIff(s[Width(s, inside)..], StillInside(s, inside));
    }
  }

  /** A text is left as it is exactly when it was JSON already. */
  lemma UnchangedIff(text: string)
    ensures OnePass(text, false) == text <==> IsJson(text, false)
  {
    ShortensIff(text, false);
  }

  /** One comma of two is trailing only once the other is gone, so a second
      pass can still find something. */
  lemma TwoCommas()
    ensures OnePass(",,}", false) == ",}"
    ensures !IsJson(",}", false)
  {
    assert ",,}"[1..] == ",}" && ",}"[1..] == "}" && "}"[1..] == "";
    assert Next("}") == Some('}');
    assert Next(",}") == Some(',');
    assert OnePass("}", false) == "}";
    assert OnePass(",}", false) == "}";
  }

  // What a comment is, and a trailing comma, said of the text.

  /** A text without comments that ends outside strings, and not in a slash. */
  predicate IsFront(s: string, inside: bool)
    decreases |s|
  {
    if s == [] then !inside
    else
      && (inside || (!StartsLine(s) && !StartsBlock(s) && s != "/"))
      && IsFront(s[Width(s, inside)..], StillInside(s, inside))
  }

  lemma FrontOpens(front: string, s: string, inside: bool)
    requires front != [] && IsFront(front, inside)
    ensures Width(front + s, inside) == Width(front, inside)
    ensures StillInside(front + s, inside) == StillInside(front, inside)
    ensures (front + s)[..Width(front, inside)] == front[..Width(front, inside)]
    ensures (front + s)[Width(front, inside)..] == front[Width(front, inside)..] + s
    ensures !inside ==> !StartsLine(front + s) && !StartsBlock(front + s)
  {
    var w := Width(front, inside);
    assert |front| > 1 ==> (front + s)[1] == front[1];
    assert |front| == 1 && w == 1 && inside ==> front[0] != '\\';
    Cut(front, s, w);
  }

  lemma Cut(front: string, s: string, w: nat)
    requires w <= |front|
    ensures (front + s)[..w] == front[..w] && (front + s)[w..] == front[w..] + s
  {
  }

  lemma {:induction false} NextBehind(front: string, s: string, t: string)
    requires IsFront(front, false) && Next(s) == Next(t)
    ensures Next(front + s) == Next(front + t)
    decreases |front|
  {
    if front == [] {
      assert front + s == s && front + t == t;
    } else {
      FrontOpens(front, s, false);
      FrontOpens(front, t, false);
      if IsWhite(front[0]) {
        NextBehind(front[1..], s, t);
      }
    }
  }

  lemma TrailingBehind(front: string, s: string, t: string)
    requires front != [] && IsFront(front, false) && Next(s) == Next(t)
    ensures Trailing(front + s) <==> Trailing(front + t)
  {
    FrontOpens(front, s, false);
    FrontOpens(front, t, false);
    if front[0] == ',' {
      NextBehind(front[1..], s, t);
    }
  }

  /** Two texts that come to the same and go on with the same character do so
      behind anything. */
  lemma {:induction false} SameBehind(front: string, s: string, t: string, inside: bool)
    requires IsFront(front, inside) && OnePass(s, false) == OnePass(t, false) && Next(s) == Next(t)
    ensures OnePass(front + s, inside) == OnePass(front + t, inside)
    decreases |front|
  {
    if front == [] {
      assert front + s == s && front + t == t;
    } else {
      FrontOpens(front, s, inside);
      FrontOpens(front, t, inside);
      SameBehind(front[Width(front, inside)..], s, t, StillInside(front, inside));
      if !inside {
        TrailingBehind(front, s, t);
      }
    }
  }

  lemma {:induction false} LineEnds(c: string, rest: string)
    requires '\n' !in c
    ensures AfterLine(c + "\n" + rest) == "\n" + rest
  {
    if c == [] {
      assert c + "\n" + rest == "\n" + rest;
    } else {
      assert (c + "\n" + rest)[1..] == c[1..] + "\n" + rest;
      LineEnds(c[1..], rest);
    }
  }

  predicate IsEndMark(s: string, i: nat) {
    i + 1 < |s| && s[i] == '*' && s[i + 1] == '/'
  }

  /** No block comment ends in this. */
  ghost predicate HasNoEndMark(s: string) {
    forall i: nat :: !IsEndMark(s, i)
  }

  lemma NoEndMarkInTail(s: string)
    requires s != [] && HasNoEndMark(s)
    ensures HasNoEndMark(s[1..])
  {
    forall i: nat
      ensures !IsEndMark(s[1..], i)
    {
      assert !IsEndMark(s, i + 1);
    }
  }

  lemma {:induction false} BlockEnds(c: string, rest: string)
    requires HasNoEndMark(c + "*")
    ensures AfterBlock(c + "*/" + rest) == rest
  {
    var s := c + "*/" + rest;
    if c == [] {
      assert s[..2] == "*/" && s[2..] == rest;
    } else {
      assert s[1..] == c[1..] + "*/" + rest;
      assert !IsEndMark(c + "*", 0) && s[0] == (c + "*")[0] && s[1] == (c + "*")[1];
      NoEndMarkInTail(c + "*");
      assert (c + "*")[1..] == c[1..] + "*";
      BlockEnds(c[1..], rest);
    }
  }

  /** A line comment is from its two slashes to the line break, which stays. */
  lemma LineCommentGoes(front: string, c: string, rest: string)
    requires IsFront(front, false) && '\n' !in c
    ensures OnePass(front + ("//" + c + "\n" + rest), false) == OnePass(front + ("\n" + rest), false)
  {
    var s := "//" + c + "\n" + rest;
    assert s[2..] == c + "\n" + rest;
    LineEnds(c, rest);
    SameBehind(front, s, "\n" + rest, false);
  }

  /** A block comment is up to the first mark that ends one, and all of it goes. */
  lemma BlockCommentGoes(front: string, c: string, rest: string)
    requires IsFront(front, false) && HasNoEndMark(c + "*")
    ensures OnePass(front + ("/*" + c + "*/" + rest), false) == OnePass(front + rest, false)
  {
    var s := "/*" + c + "*/" + rest;
    assert s[2..] == c + "*/" + rest;
    BlockEnds(c, rest);
    SameBehind(front, s, rest, false);
  }

  lemma {:induction false} LineNeverEnds(c: string)
    requires '\n' !in c
    ensures AfterLine(c) == []
  {
    if c != [] {
      LineNeverEnds(c[1..]);
    }
  }

  lemma {:induction false} BlockNeverEnds(c: string)
    requires HasNoEndMark(c)
    ensures AfterBlock(c) == []
  {
    if |c| >= 2 {
      assert !IsEndMark(c, 0);
      NoEndMarkInTail(c);
      BlockNeverEnds(c[1..]);
    }
  }

  /** One that does not end takes the rest of the text. */
  lemma OpenCommentsGo(front: string, c: string)
    requires IsFront(front, false)
    ensures '\n' !in c ==> OnePass(front + ("//" + c), false) == OnePass(front + "", false)
    ensures HasNoEndMark(c) ==> OnePass(front + ("/*" + c), false) == OnePass(front + "", false)
  {
    assert ("//" + c)[2..] == c && ("/*" + c)[2..] == c;
    if '\n' !in c {
      LineNeverEnds(c);
      SameBehind(front, "//" + c, "", false);
    }
    if HasNoEndMark(c) {
      BlockNeverEnds(c);
      SameBehind(front, "/*" + c, "", false);
    }
  }

  predicate AllWhite(w: string) {
    forall i :: 0 <= i < |w| ==> IsWhite(w[i])
  }

  lemma {:induction false} NextPastWhite(w: string, s: string)
    requires AllWhite(w)
    ensures Next(w + s) == Next(s)
  {
    if w == [] {
      assert w + s == s;
    } else {
      assert (w + s)[1..] == w[1..] + s;
      NextPastWhite(w[1..], s);
    }
  }

  /** A slash that another or a star does not follow is a character like any. */
  predicate BeginsNothing(c: char, rest: string) {
    c == '/' ==> rest == [] || (rest[0] != '/' && rest[0] != '*')
  }

  /** A comma with nothing after it stays. */
  lemma LastCommaStays(w: string)
    requires AllWhite(w)
    ensures OnePass("," + w, false) == "," + OnePass(w, false)
  {
    assert ("," + w)[1..] == w && ("," + w)[..1] == ",";
    NextPastWhite(w, "");
    assert w + "" == w;
  }

  /** A comma goes if and only if, white space aside, a closing bracket or brace
      comes next. */
  lemma CommaGoesIff(w: string, c: char, rest: string)
    requires AllWhite(w) && !IsWhite(c) && BeginsNothing(c, rest)
    ensures OnePass("," + (w + ([c] + rest)), false)
         == (if c == '}' || c == ']' then "" else ",") + OnePass(w + ([c] + rest), false)
  {
    var s := w + ([c] + rest);
    assert ("," + s)[1..] == s && ("," + s)[..1] == ",";
    NextPastWhite(w, [c] + rest);
    assert Next([c] + rest) == Some(c);
    assert "" + OnePass(s, false) == OnePass(s, false);
  }

  /** The inside of a string literal: characters, and escapes of two. */
  predicate IsLiteralBody(body: string)
    decreases |body|
  {
    || body == []
    || (body[0] != '"' && body[0] != '\\' && IsLiteralBody(body[1..]))
    || (body[0] == '\\' && |body| >= 2 && IsLiteralBody(body[2..]))
  }

  lemma {:induction false} InsideComesThrough(body: string, rest: string)
    requires IsLiteralBody(body)
    ensures OnePass(body + ("\"" + rest), true) == body + ("\"" + OnePass(rest, false))
    decreases |body|
  {
    var s := body + ("\"" + rest);
    if body == [] {
      assert s == "\"" + rest && s[..1] == "\"" && s[1..] == rest;
      assert body + ("\"" + OnePass(rest, false)) == "\"" + OnePass(rest, false);
    } else {
      var w := if body[0] == '\\' then 2 else 1;
      Cut(body, "\"" + rest, w);
      InsideComesThrough(body[w..], rest);
      assert Width(s, true) == w && StillInside(s, true);
      assert body == body[..w] + body[w..];
      assert body[..w] + (body[w..] + ("\"" + OnePass(rest, false))) == body + ("\"" + OnePass(rest, false));
    }
  }

  /** A string comes through whole, whatever is in it, and what follows is read as
      outside one. */
  lemma StringsComeThrough(body: string, rest: string)
    requires IsLiteralBody(body)
    ensures OnePass("\"" + (body + ("\"" + rest)), false) == "\"" + (body + ("\"" + OnePass(rest, false)))
  {
    var s := "\"" + (body + ("\"" + rest));
    assert s[..1] == "\"" && s[1..] == body + ("\"" + rest);
    InsideComesThrough(body, rest);
  }

  /** So does every other character that begins nothing. */
  lemma OthersComeThrough(c: char, rest: string)
    requires c != '"' && c != ',' && BeginsNothing(c, rest)
    ensures OnePass([c] + rest, false) == [c] + OnePass(rest, false)
  {
    assert ([c] + rest)[..1] == [c] && ([c] + rest)[1..] == rest;
  }
}
