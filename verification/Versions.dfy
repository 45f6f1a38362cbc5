/** Versions as npm writes them, and the order item 11 of SemVer 2.0.0 puts
    them in. */
module Versions {
  import opened Orders

  /** One dot separated piece of a prerelease. */
  datatype Part = Number(n: nat) | Text(t: string)

  /** `pre` is empty for a release. */
  datatype Version = Version(major: nat, minor: nat, patch: nat, pre: seq<Part>)

  predicate IsRelease(v: Version) {
    v.pre == []
  }

  function Release(major: nat, minor: nat, patch: nat): Version {
    Version(major, minor, patch, [])
  }

  predicate SameNumbers(a: Version, b: Version) {
    a.major == b.major && a.minor == b.minor && a.patch == b.patch
  }

  /** A number is worth less than a name. */
  function CompareParts(a: Part, b: Part): Order {
    match (a, b)
    case (Number(m), Number(n)) => CompareInts(m, n)
    case (Text(s), Text(t)) => CompareTexts(s, t)
    case (Number(_), Text(_)) => Less
    case (Text(_), Number(_)) => Greater
  }

  function ComparePres(a: seq<Part>, b: seq<Part>): Order {
    Lexicographic(CompareParts, a, b)
  }

  function CompareNumbers(a: Version, b: Version): Order {
    Or(CompareInts(a.major, b.major), Or(CompareInts(a.minor, b.minor), CompareInts(a.patch, b.patch)))
  }

  /** Numbers first; then having a prerelease at all is lower than not. */
  function Compare(a: Version, b: Version): Order {
    Or(CompareNumbers(a, b),
       match (a.pre == [], b.pre == [])
       case (true, true) => Equal
       case (true, false) => Greater
       case (false, true) => Less
       case (false, false) => ComparePres(a.pre, b.pre))
  }

  predicate AtMost(a: Version, b: Version) {
    Compare(a, b) != Greater
  }

  lemma PartsAreTotal()
    ensures IsTotal(CompareParts)
  {
    TextsAreTotal();
    forall x: Part, y: Part
      ensures CompareParts(x, y) == Equal <==> x == y
      ensures CompareParts(y, x) == Flip(CompareParts(x, y))
    {
    }
    forall x: Part, y: Part, z: Part | CompareParts(x, y) == Less && CompareParts(y, z) == Less
      ensures CompareParts(x, z) == Less
    {
    }
  }

  lemma PresAreTotal()
    ensures IsTotal(ComparePres)
  {
    PartsAreTotal();
    LexIsTotal(CompareParts, ComparePres);
  }

  /** Versions are totally ordered and equal only when they are the same
      version, prereleases of any shape included. */
  lemma VersionsAreTotal()
    ensures IsTotal(Compare)
  {
    PresAreTotal();
    forall x: Version, y: Version
      ensures Compare(x, y) == Equal <==> x == y
      ensures Compare(y, x) == Flip(Compare(x, y))
    {
    }
    forall x: Version, y: Version, z: Version | Compare(x, y) == Less && Compare(y, z) == Less
      ensures Compare(x, z) == Less
    {
    }
  }

  // The order, said of the versions.

  /** The characters of a text are ordered by their code points, and a text that
      goes on is above one that ends. */
  ghost predicate TextBelow(s: string, t: string) {
    s < t || exists i: nat :: FirstApart(s, t, i) && s[i] < t[i]
  }

  /** Of two pieces of a prerelease, in the words of item 11.4. */
  ghost predicate PartBelow(a: Part, b: Part) {
    || (a.Number? && b.Number? && a.n < b.n)
    || (a.Number? && b.Text?)
    || (a.Text? && b.Text? && TextBelow(a.t, b.t))
  }

  ghost predicate PreBelow(a: seq<Part>, b: seq<Part>) {
    a < b || exists i: nat :: FirstApart(a, b, i) && PartBelow(a[i], b[i])
  }

  ghost predicate NumbersBelow(a: Version, b: Version) {
    || a.major < b.major
    || (a.major == b.major && a.minor < b.minor)
    || (a.major == b.major && a.minor == b.minor && a.patch < b.patch)
  }

  lemma PartBelowIff(a: Part, b: Part)
    ensures CompareParts(a, b) == Less <==> PartBelow(a, b)
  {
    if a.Text? && b.Text? {
      LexLessIff(CompareChars, a.t, b.t);
    }
  }

  lemma PreBelowIff(a: seq<Part>, b: seq<Part>)
    ensures ComparePres(a, b) == Less <==> PreBelow(a, b)
  {
    PartsAreTotal();
    LexLessIff(CompareParts, a, b);
    forall i: nat | FirstApart(a, b, i)
      ensures CompareParts(a[i], b[i]) == Less <==> PartBelow(a[i], b[i])
    {
      PartBelowIff(a[i], b[i]);
    }
  }

  /** Item 11: by the numbers in turn, then by having a prerelease where the other
      has none, then by the pieces of the prereleases. */
  ghost predicate IsBelow(a: Version, b: Version) {
    || NumbersBelow(a, b)
    || (a.major == b.major && a.minor == b.minor && a.patch == b.patch
        && a.pre != [] && (b.pre == [] || PreBelow(a.pre, b.pre)))
  }

  /** A version is below another exactly as item 11 says. */
  lemma BelowIff(a: Version, b: Version)
    ensures Compare(a, b) == Less <==> IsBelow(a, b)
    ensures AtMost(a, b) <==> IsBelow(a, b) || a == b
  {
    VersionsAreTotal();
    PreBelowIff(a.pre, b.pre);
  }

  lemma AtMostIsTransitive(a: Version, b: Version, c: Version)
    requires AtMost(a, b) && AtMost(b, c)
    ensures AtMost(a, c)
  {
    VersionsAreTotal();
  }
}
