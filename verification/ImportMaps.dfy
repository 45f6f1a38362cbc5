/** What a specifier means to a file, under an import map.

    The characters of these texts stand for the bytes of the source's, so a
    length here is the length the source sorts by. */
module ImportMaps {
  import opened Wrappers
  import opened Orders
  import opened Sorting

  datatype Entry = Entry(key: string, address: string)

  /** One scope: the url its importers start with, and its own entries. */
  datatype Scope = Scope(prefix: string, entries: seq<Entry>)

  // Taking the first of a list sorted longest first.

  function First<T>(p: T -> bool, xs: seq<T>): (r: Option<T>)
    ensures r.Some? ==> p(r.value)
  {
    if xs == [] then None else if p(xs[0]) then Some(xs[0]) else First(p, xs[1..])
  }

  function LongestFirst<T>(length: T -> nat): (T, T) -> Order {
    (a: T, b: T) => CompareInts(length(b), length(a))
  }

  /** Longest first, and what is as long as each other in the order it was. */
  function ByLength<T>(length: T -> nat, xs: seq<T>): seq<T> {
    Sorted(LongestFirst(length), xs)
  }

  /** `x` is of the list, has the property, and nothing longer does. */
  ghost predicate IsLongest<T(!new)>(p: T -> bool, length: T -> nat, xs: seq<T>, x: T) {
    x in xs && p(x) && forall y :: y in xs && p(y) ==> length(y) <= length(x)
  }

  lemma {:induction false} FirstIsLongest<T(!new)>(p: T -> bool, length: T -> nat, xs: seq<T>)
    requires InOrder(LongestFirst(length), xs)
    ensures First(p, xs).None? <==> forall x :: x in xs ==> !p(x)
    ensures First(p, xs).Some? ==> IsLongest(p, length, xs, First(p, xs).value)
  {
    if xs != [] {
      assert xs == [xs[0]] + xs[1..];
      assert forall i :: 1 <= i < |xs| ==> LongestFirst(length)(xs[0], xs[i]) != Greater;
      FirstIsLongest(p, length, xs[1..]);
    }
  }

  /** The first of a list sorted longest first is a longest of the list. */
  lemma FirstByLength<T(!new)>(p: T -> bool, length: T -> nat, xs: seq<T>)
    ensures First(p, ByLength(length, xs)).None? <==> forall x :: x in xs ==> !p(x)
    ensures First(p, ByLength(length, xs)).Some? ==> IsLongest(p, length, xs, First(p, ByLength(length, xs)).value)
  {
    SortedInOrder(LongestFirst(length), xs);
    SortedMembers(LongestFirst(length), xs);
    FirstIsLongest(p, length, ByLength(length, xs));
  }

  // Matching one specifier against one list of entries.

  predicate StartsWith(s: string, prefix: string) {
    prefix <= s
  }

  predicate EndsWithSlash(s: string) {
    s != [] && s[|s| - 1] == '/'
  }

  /** The key is the specifier, or names the directory it is in. */
  predicate Covers(key: string, specifier: string) {
    key == specifier || (EndsWithSlash(key) && StartsWith(specifier, key))
  }

  /** The key is a package, and the specifier a path in it. */
  predicate CoversInPackage(e: Entry, specifier: string) {
    && (StartsWith(e.address, "npm:") || StartsWith(e.address, "jsr:"))
    && StartsWith(specifier, e.key)
    && StartsWith(specifier[|e.key|..], "/")
  }

  /** Said of the texts: a key covers itself, and where it ends in a slash whatever
      goes on from there. */
  lemma CoversIff(key: string, specifier: string)
    ensures Covers(key, specifier) <==>
            specifier == key || exists directory, rest :: key == directory + "/" && specifier == directory + "/" + rest
  {
    if EndsWithSlash(key) && StartsWith(specifier, key) {
      var directory, rest := key[..|key| - 1], specifier[|key|..];
      assert key == directory + "/" && specifier == directory + "/" + rest;
    }
  }

  /** A package covers its paths: its own name, a slash, and anything after. */
  lemma CoversInPackageIff(e: Entry, specifier: string)
    ensures CoversInPackage(e, specifier) <==>
            && (exists name :: e.address == "npm:" + name || e.address == "jsr:" + name)
            && exists path :: specifier == e.key + "/" + path
  {
    if CoversInPackage(e, specifier) {
      var name, path := e.address[4..], specifier[|e.key| + 1..];
      assert e.address == e.address[..4] + name;
      assert e.address == "npm:" + name || e.address == "jsr:" + name;
      assert specifier == e.key + specifier[|e.key|..] && specifier[|e.key|..] == "/" + path;
      assert specifier == e.key + "/" + path;
    }
    if path :| specifier == e.key + "/" + path {
      assert specifier[|e.key|..] == "/" + path;
    }
  }

  function KeyLength(e: Entry): nat {
    |e.key|
  }

  function Matched(entries: seq<Entry>, specifier: string): Option<string> {
    match First((e: Entry) => Covers(e.key, specifier), entries)
    case Some(e) => Some(if e.key == specifier then e.address else e.address + specifier[|e.key|..])
    case None =>
      match First((e: Entry) => CoversInPackage(e, specifier), entries)
      case Some(e) => Some(e.address + specifier[|e.key|..])
      case None => None
  }

  ghost predicate UniqueKeys(entries: seq<Entry>) {
    forall e, f :: e in entries && f in entries && e.key == f.key ==> e == f
  }

  /** Where the specifier goes under one entry. */
  function Through(e: Entry, specifier: string): string
    requires |e.key| <= |specifier|
  {
    e.address + specifier[|e.key|..]
  }

  lemma PrefixesOfALength(s: string, a: string, b: string)
    requires StartsWith(s, a) && StartsWith(s, b) && |a| == |b|
    ensures a == b
  {
    assert a == s[..|a|] && b == s[..|b|];
  }

  /** What decides: the longest covering key, or with none the longest package
      that has the path. No other entry plays a part. */
  lemma MatchedByTheLongest(entries: seq<Entry>, specifier: string, e: Entry)
    requires UniqueKeys(entries)
    requires
      || IsLongest((f: Entry) => Covers(f.key, specifier), KeyLength, entries, e)
      || (&& (forall f :: f in entries ==> !Covers(f.key, specifier))
          && IsLongest((f: Entry) => CoversInPackage(f, specifier), KeyLength, entries, e))
    ensures |e.key| <= |specifier|
    ensures Matched(ByLength(KeyLength, entries), specifier) == Some(Through(e, specifier))
  {
    var sorted := ByLength(KeyLength, entries);
    var covers := (f: Entry) => Covers(f.key, specifier);
    FirstByLength(covers, KeyLength, entries);
    if IsLongest(covers, KeyLength, entries, e) {
      var hit := First(covers, sorted).value;
      PrefixesOfALength(specifier, hit.key, e.key);
      assert e.key == specifier ==> specifier[|e.key|..] == [];
      assert e.address + [] == e.address;
    } else {
      var inPackage := (f: Entry) => CoversInPackage(f, specifier);
      FirstByLength(inPackage, KeyLength, entries);
      var hit := First(inPackage, sorted).value;
      PrefixesOfALength(specifier, hit.key, e.key);
    }
  }

  /** An exact key answers whatever prefixes there are. */
  lemma ExactKeyWins(entries: seq<Entry>, e: Entry)
    requires UniqueKeys(entries) && e in entries
    ensures Matched(ByLength(KeyLength, entries), e.key) == Some(e.address)
  {
    MatchedByTheLongest(entries, e.key, e);
    assert e.address + e.key[|e.key|..] == e.address;
  }

  lemma SomethingIsLongest<T(!new)>(p: T -> bool, length: T -> nat, xs: seq<T>) returns (x: T)
    requires exists y :: y in xs && p(y)
    ensures IsLongest(p, length, xs, x)
  {
    FirstByLength(p, length, xs);
    x := First(p, ByLength(length, xs)).value;
  }

  /** A specifier is answered exactly when some key covers it or some package
      has it. */
  lemma UnmatchedIff(entries: seq<Entry>, specifier: string)
    ensures Matched(ByLength(KeyLength, entries), specifier).None? <==>
            forall e :: e in entries ==> !Covers(e.key, specifier) && !CoversInPackage(e, specifier)
  {
    FirstByLength((f: Entry) => Covers(f.key, specifier), KeyLength, entries);
    FirstByLength((f: Entry) => CoversInPackage(f, specifier), KeyLength, entries);
  }

  /** The order a map's entries are written in changes no answer. */
  lemma WrittenOrderIsNothing(entries: seq<Entry>, other: seq<Entry>, specifier: string)
    requires UniqueKeys(entries) && forall e :: e in entries <==> e in other
    ensures Matched(ByLength(KeyLength, entries), specifier) == Matched(ByLength(KeyLength, other), specifier)
  {
    var covers := (f: Entry) => Covers(f.key, specifier);
    var inPackage := (f: Entry) => CoversInPackage(f, specifier);
    if exists e :: e in entries && covers(e) {
      var e := SomethingIsLongest(covers, KeyLength, entries);
      MatchedByTheLongest(entries, specifier, e);
      MatchedByTheLongest(other, specifier, e);
    } else if exists e :: e in entries && inPackage(e) {
      var e := SomethingIsLongest(inPackage, KeyLength, entries);
      MatchedByTheLongest(entries, specifier, e);
      MatchedByTheLongest(other, specifier, e);
    } else {
      UnmatchedIff(entries, specifier);
      UnmatchedIff(other, specifier);
    }
  }

  // Scopes.

  function PrefixLength(s: Scope): nat {
    |s.prefix|
  }

  predicate Contains(s: Scope, referrer: string) {
    StartsWith(referrer, s.prefix)
  }

  function Containing(scopes: seq<Scope>, referrer: string): seq<Scope> {
    if scopes == [] then []
    else (if Contains(scopes[0], referrer) then [scopes[0]] else []) + Containing(scopes[1..], referrer)
  }

  /** The innermost scope that contains the importer and answers, and then the
      top of the map. */
  function Resolve(imports: seq<Entry>, scopes: seq<Scope>, specifier: string, referrer: string): Option<string> {
    match First((s: Scope) => Matched(s.entries, specifier).Some?,
                ByLength(PrefixLength, Containing(scopes, referrer)))
    case Some(s) => Matched(s.entries, specifier)
    case None => Matched(imports, specifier)
  }

  lemma {:induction false} ContainingHas(scopes: seq<Scope>, referrer: string, s: Scope)
    ensures s in Containing(scopes, referrer) <==> s in scopes && Contains(s, referrer)
  {
    if scopes != [] {
      ContainingHas(scopes[1..], referrer, s);
    }
  }

  ghost predicate UniquePrefixes(scopes: seq<Scope>) {
    forall s, t :: s in scopes && t in scopes && s.prefix == t.prefix ==> s == t
  }

  predicate AnswersFor(s: Scope, specifier: string, referrer: string) {
    Contains(s, referrer) && Matched(s.entries, specifier).Some?
  }

  /** A scope answers for the file when it contains it, has an answer, and no
      longer one does; the top of the map only when none does. */
  lemma ResolvedByTheInnermost(imports: seq<Entry>, scopes: seq<Scope>, specifier: string, referrer: string)
    requires UniquePrefixes(scopes)
    ensures forall s :: IsLongest((t: Scope) => AnswersFor(t, specifier, referrer), PrefixLength, scopes, s) ==>
                          Resolve(imports, scopes, specifier, referrer) == Matched(s.entries, specifier)
    ensures (forall s :: s in scopes ==> !AnswersFor(s, specifier, referrer)) ==>
              Resolve(imports, scopes, specifier, referrer) == Matched(imports, specifier)
  {
    var containing := Containing(scopes, referrer);
    forall s
      ensures s in containing <==> s in scopes && Contains(s, referrer)
    {
      ContainingHas(scopes, referrer, s);
    }
    var answers := (s: Scope) => Matched(s.entries, specifier).Some?;
    FirstByLength(answers, PrefixLength, containing);
    forall s | IsLongest((t: Scope) => AnswersFor(t, specifier, referrer), PrefixLength, scopes, s)
      ensures Resolve(imports, scopes, specifier, referrer) == Matched(s.entries, specifier)
    {
      var hit := First(answers, ByLength(PrefixLength, containing)).value;
      assert AnswersFor(hit, specifier, referrer);
      PrefixesOfALength(referrer, hit.prefix, s.prefix);
    }
  }
}
