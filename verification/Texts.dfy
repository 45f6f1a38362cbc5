/** The pieces of text handling the models share: Unicode white space, the
    trims, and ASCII case. */
module Texts {

  /** The Unicode White_Space property. */
  predicate IsWhite(c: char) {
    var n := c as int;
    || 9 <= n <= 13
    || n == 0x20 || n == 0x85 || n == 0xa0 || n == 0x1680
    || 0x2000 <= n <= 0x200a
    || n == 0x2028 || n == 0x2029 || n == 0x202f || n == 0x205f || n == 0x3000
  }

  /** Its members, one by one. */
  lemma WhiteIs(c: char)
    ensures IsWhite(c) <==> c as int in {
              0x9, 0xa, 0xb, 0xc, 0xd, 0x20, 0x85, 0xa0, 0x1680,
              0x2000, 0x2001, 0x2002, 0x2003, 0x2004, 0x2005, 0x2006, 0x2007, 0x2008, 0x2009, 0x200a,
              0x2028, 0x2029, 0x202f, 0x205f, 0x3000}
  {
  }

  function TrimStart(p: char -> bool, s: string): string {
    if s != [] && p(s[0]) then TrimStart(p, s[1..]) else s
  }

  function TrimEnd(p: char -> bool, s: string): string {
    if s != [] && p(s[|s| - 1]) then TrimEnd(p, s[..|s| - 1]) else s
  }

  function Trim(s: string): string {
    TrimEnd(IsWhite, TrimStart(IsWhite, s))
  }

  /** Everything before the first of a character. */
  function Until(c: char, s: string): string {
    if s == [] || s[0] == c then [] else [s[0]] + Until(c, s[1..])
  }

  function Upper(c: char): char {
    if 'a' <= c <= 'z' then c - 32 as char else c
  }

  function Repeated(c: char, k: nat): string {
    if k == 0 then [] else Repeated(c, k - 1) + [c]
  }

  /** Stripping what was put at the end gives back the text in front of it. */
  lemma {:induction false} TrimEndOfRepeated(c: char, s: string, k: nat)
    requires s == [] || s[|s| - 1] != c
    ensures TrimEnd(x => x == c, s + Repeated(c, k)) == s
  {
    var t := s + Repeated(c, k);
    if k > 0 {
      assert t == s + Repeated(c, k - 1) + [c];
      assert t[..|t| - 1] == s + Repeated(c, k - 1);
      TrimEndOfRepeated(c, s, k - 1);
    } else {
      assert t == s;
    }
  }

  /** What stripping leaves is the text up to a run of that character. */
  lemma {:induction false} TrimEndLeaves(c: char, s: string) returns (k: nat)
    ensures s == TrimEnd(x => x == c, s) + Repeated(c, k)
  {
    if s != [] && s[|s| - 1] == c {
      k := TrimEndLeaves(c, s[..|s| - 1]);
      k := k + 1;
      assert s == s[..|s| - 1] + [c];
    } else {
      k := 0;
    }
  }

  lemma {:induction false} UntilOfPlain(c: char, s: string, rest: string)
    requires c !in s
    requires rest == [] || rest[0] == c
    ensures Until(c, s + rest) == s
  {
    if s != [] {
      assert (s + rest)[1..] == s[1..] + rest;
      UntilOfPlain(c, s[1..], rest);
    } else {
      assert s + rest == rest;
    }
  }

  lemma {:induction false} UntilIs(c: char, s: string)
    ensures Until(c, s) <= s && c !in Until(c, s)
    ensures |Until(c, s)| < |s| ==> s[|Until(c, s)|] == c
  {
    if s != [] && s[0] != c {
      UntilIs(c, s[1..]);
    }
  }

  lemma {:induction false} RepeatedIs(c: char, k: nat)
    ensures |Repeated(c, k)| == k
    ensures forall i :: 0 <= i < k ==> Repeated(c, k)[i] == c
  {
    if k > 0 {
      RepeatedIs(c, k - 1);
    }
  }

  lemma TrimOfPlain(s: string)
    requires s == [] || (!IsWhite(s[0]) && !IsWhite(s[|s| - 1]))
    ensures Trim(s) == s
  {
  }

  /** Nothing but white space. */
  predicate IsBlank(s: string) {
    forall i :: 0 <= i < |s| ==> IsWhite(s[i])
  }

  lemma {:induction false} TrimStartIs(s: string) returns (front: string)
    ensures IsBlank(front) && s == front + TrimStart(IsWhite, s)
    ensures TrimStart(IsWhite, s) == [] || !IsWhite(TrimStart(IsWhite, s)[0])
  {
    if s != [] && IsWhite(s[0]) {
      front := TrimStartIs(s[1..]);
      front := [s[0]] + front;
      assert s == [s[0]] + s[1..];
    } else {
      front := [];
    }
  }

  lemma {:induction false} TrimEndIs(s: string) returns (back: string)
    ensures IsBlank(back) && s == TrimEnd(IsWhite, s) + back
    ensures TrimEnd(IsWhite, s) == [] || !IsWhite(TrimEnd(IsWhite, s)[|TrimEnd(IsWhite, s)| - 1])
  {
    if s != [] && IsWhite(s[|s| - 1]) {
      back := TrimEndIs(s[..|s| - 1]);
      back := back + [s[|s| - 1]];
      assert s == s[..|s| - 1] + [s[|s| - 1]];
    } else {
      back := [];
    }
  }

  /** Trimming takes the white space off both ends, all of it and nothing else. */
  lemma TrimIs(s: string) returns (front: string, back: string)
    ensures IsBlank(front) && IsBlank(back) && s == front + Trim(s) + back
    ensures Trim(s) == [] || (!IsWhite(Trim(s)[0]) && !IsWhite(Trim(s)[|Trim(s)| - 1]))
  {
    front := TrimStartIs(s);
    back := TrimEndIs(TrimStart(IsWhite, s));
    assert s == front + (Trim(s) + back);
  }

  /** The capitals of the small letters, in ASCII, and every other character as it
      is. */
  lemma UpperIs(c: char)
    ensures 97 <= c as int <= 122 ==> Upper(c) as int == c as int - 32
    ensures !(97 <= c as int <= 122) ==> Upper(c) == c
  {
  }
}
