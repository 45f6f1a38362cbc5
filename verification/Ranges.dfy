/** npm ranges: sets of comparators, the words they are written in, and the
    version a registry's list gives for one. */
module Ranges {
  import opened Wrappers
  import opened Orders
  import opened Versions

  datatype Op = Lt | Lte | Gt | Gte | Eq

  datatype Comparator = Comparator(op: Op, at: Version)

  /** A version with holes in it; nothing is named after the first hole. */
  datatype Loose = Loose(major: Option<nat>, minor: Option<nat>, patch: Option<nat>, pre: seq<Part>)

  predicate HolesAtTheEnd(p: Loose) {
    && (p.major.None? ==> p.minor.None?)
    && (p.minor.None? ==> p.patch.None?)
  }

  function OrZero(n: Option<nat>): nat {
    if n.Some? then n.value else 0
  }

  /** The lowest version something with holes in it could mean. */
  function Floor(p: Loose): Version {
    Version(OrZero(p.major), OrZero(p.minor), OrZero(p.patch), p.pre)
  }

  predicate Meets(c: Comparator, v: Version) {
    var how := Compare(v, c.at);
    match c.op
    case Lt => how == Less
    case Lte => how != Greater
    case Gt => how == Greater
    case Gte => how != Less
    case Eq => how == Equal
  }

  /** Every comparator has to be met; a prerelease also has to be asked for, by
      a comparator about a prerelease of the same three numbers. */
  predicate SetAllows(cs: seq<Comparator>, v: Version) {
    && (IsRelease(v) || exists i :: 0 <= i < |cs| && !IsRelease(cs[i].at) && SameNumbers(cs[i].at, v))
    && forall i :: 0 <= i < |cs| ==> Meets(cs[i], v)
  }

  predicate Allows(range: seq<seq<Comparator>>, v: Version) {
    exists i :: 0 <= i < |range| && SetAllows(range[i], v)
  }

  function Caret(p: Loose): seq<Comparator> {
    var from := Floor(p);
    var to :=
      if from.major != 0 then Release(from.major + 1, 0, 0)
      else if p.minor.None? then Release(1, 0, 0)
      else if p.minor.value == 0 && p.patch.Some? then Release(0, 0, from.patch + 1)
      else Release(0, p.minor.value + 1, 0);
    [Comparator(Gte, from), Comparator(Lt, to)]
  }

  function Tilde(p: Loose): seq<Comparator> {
    var from := Floor(p);
    var to :=
      if p.minor.None? then Release(from.major + 1, 0, 0)
      else Release(from.major, p.minor.value + 1, 0);
    [Comparator(Gte, from), Comparator(Lt, to)]
  }

  /** A bare `1`, `1.2` or `1.2.3`. */
  function Bare(p: Loose): seq<Comparator> {
    if p.major.None? then []
    else if p.minor.None? then
      [Comparator(Gte, Release(p.major.value, 0, 0)), Comparator(Lt, Release(p.major.value + 1, 0, 0))]
    else if p.patch.None? then
      [Comparator(Gte, Release(p.major.value, p.minor.value, 0)),
       Comparator(Lt, Release(p.major.value, p.minor.value + 1, 0))]
    else [Comparator(Eq, Version(p.major.value, p.minor.value, p.patch.value, p.pre))]
  }

  /** The first version past everything a partial version covers. */
  function Past(p: Loose): Version
    requires p.major.Some? && (p.minor.None? || p.patch.None?)
  {
    if p.minor.None? then Release(p.major.value + 1, 0, 0)
    else Release(p.major.value, p.minor.value + 1, 0)
  }

  /** An operator written before something with holes in it. */
  function Bound(op: Op, p: Loose): seq<Comparator> {
    if p.major.None? then []
    else if op.Gt? && (p.minor.None? || p.patch.None?) then [Comparator(Gte, Past(p))]
    else if op.Lte? && (p.minor.None? || p.patch.None?) then [Comparator(Lt, Past(p))]
    else [Comparator(op, Floor(p))]
  }

  /** `from - to`; nothing when the right hand side names no major. */
  function Hyphen(from: Loose, to: Loose): Option<seq<Comparator>> {
    if to.major.None? then None
    else if to.minor.None? then
      Some([Comparator(Gte, Floor(from)), Comparator(Lt, Release(to.major.value + 1, 0, 0))])
    else if to.patch.None? then
      Some([Comparator(Gte, Floor(from)), Comparator(Lt, Release(to.major.value, to.minor.value + 1, 0))])
    else
      Some([Comparator(Gte, Floor(from)),
            Comparator(Lte, Version(to.major.value, to.minor.value, to.patch.value, to.pre))])
  }

  /** The highest of two, where a tie is the same version twice. */
  function Higher(best: Option<Version>, v: Version): Option<Version> {
    if best.None? || AtMost(best.value, v) then Some(v) else best
  }

  /** The highest version listed that a range allows. */
  function Best(range: seq<seq<Comparator>>, listed: seq<Version>): Option<Version> {
    if listed == [] then None
    else
      var last := listed[|listed| - 1];
      var before := Best(range, listed[..|listed| - 1]);
      if Allows(range, last) then Higher(before, last) else before
  }

  /** What a best version has to be, with no word about how it was found. */
  ghost predicate IsBest(range: seq<seq<Comparator>>, listed: seq<Version>, r: Option<Version>) {
    if r.None? then forall v :: v in listed ==> !Allows(range, v)
    else
      && r.value in listed
      && Allows(range, r.value)
      && forall v :: v in listed && Allows(range, v) ==> AtMost(v, r.value)
  }

  lemma {:induction false} BestIsBest(range: seq<seq<Comparator>>, listed: seq<Version>)
    ensures IsBest(range, listed, Best(range, listed))
  {
    if listed != [] {
      var front := listed[..|listed| - 1];
      var last := listed[|listed| - 1];
      BestIsBest(range, front);
      assert listed == front + [last];
      VersionsAreTotal();
      var before := Best(range, front);
      if before.Some? && Allows(range, last) && AtMost(before.value, last) {
        forall v | v in listed && Allows(range, v)
          ensures AtMost(v, last)
        {
          if v in front {
            AtMostIsTransitive(v, before.value, last);
          }
        }
      }
    }
  }

  /** Being best decides the version: no second one qualifies. */
  lemma BestIsUnique(range: seq<seq<Comparator>>, listed: seq<Version>, r: Option<Version>)
    ensures IsBest(range, listed, r) <==> r == Best(range, listed)
  {
    BestIsBest(range, listed);
    VersionsAreTotal();
    var best := Best(range, listed);
    if IsBest(range, listed, r) && r.Some? && best.Some? {
      assert AtMost(r.value, best.value) && AtMost(best.value, r.value);
    }
  }

  /** A registry can list in any order, list a version twice, and list any
      number of versions the range does not allow, and the answer is the same. */
  lemma BestDependsOnlyOnWhatIsAllowed(range: seq<seq<Comparator>>, listed: seq<Version>, other: seq<Version>)
    requires forall v :: Allows(range, v) ==> (v in listed <==> v in other)
    ensures Best(range, listed) == Best(range, other)
  {
    BestIsBest(range, listed);
    BestIsUnique(range, other, Best(range, listed));
  }

  /** Among releases one set of comparators leaves no gap. */
  lemma SetsAreConvex(cs: seq<Comparator>, low: Version, middle: Version, high: Version)
    requires IsRelease(middle)
    requires AtMost(low, middle) && AtMost(middle, high)
    requires SetAllows(cs, low) && SetAllows(cs, high)
    ensures SetAllows(cs, middle)
  {
    VersionsAreTotal();
    forall i | 0 <= i < |cs|
      ensures Meets(cs[i], middle)
    {
      assert Meets(cs[i], low) && Meets(cs[i], high);
    }
  }

  /** A set reaches a prerelease only by naming one of the same numbers. */
  lemma PrereleasesAreAskedFor(range: seq<seq<Comparator>>, v: Version)
    requires !IsRelease(v)
    requires forall i, j :: 0 <= i < |range| && 0 <= j < |range[i]| && SameNumbers(range[i][j].at, v) ==>
                              IsRelease(range[i][j].at)
    ensures !Allows(range, v)
  {
  }

  /** The version agrees with each number named, up to and with the first that
      is not zero. */
  predicate KeepsTheLeftmost(p: Loose, v: Version)
    requires p.major.Some?
  {
    && v.major == p.major.value
    && (p.major.value == 0 && p.minor.Some? ==>
          && v.minor == p.minor.value
          && (p.minor.value == 0 && p.patch.Some? ==> v.patch == p.patch.value))
  }

  /** `^P` is the releases from P on that keep its leftmost nonzero number. */
  lemma CaretKeepsTheLeftmost(p: Loose, v: Version)
    requires p.major.Some? && HolesAtTheEnd(p) && IsRelease(v)
    ensures SetAllows(Caret(p), v) <==> AtMost(Floor(p), v) && KeepsTheLeftmost(p, v)
  {
    VersionsAreTotal();
    var cs := Caret(p);
    assert SetAllows(cs, v) <==> Meets(cs[0], v) && Meets(cs[1], v);
  }

  /** `~P` is the releases from P on with its major, and its minor if it named
      one. */
  lemma TildeKeepsTheMinor(p: Loose, v: Version)
    requires p.major.Some? && HolesAtTheEnd(p) && IsRelease(v)
    ensures SetAllows(Tilde(p), v) <==>
              && AtMost(Floor(p), v)
              && v.major == p.major.value
              && (p.minor.Some? ==> v.minor == p.minor.value)
  {
    VersionsAreTotal();
    var cs := Tilde(p);
    assert SetAllows(cs, v) <==> Meets(cs[0], v) && Meets(cs[1], v);
  }

  /** A bare P covers what agrees with everything it named; a prerelease is
      only what it names in full. */
  lemma BareMeansWhatItNames(p: Loose, v: Version)
    requires HolesAtTheEnd(p) && IsRelease(v)
    ensures SetAllows(Bare(p), v) <==>
              && (p.major.Some? ==> v.major == p.major.value)
              && (p.minor.Some? ==> v.minor == p.minor.value)
              && (p.patch.Some? ==> v.patch == p.patch.value && p.pre == [])
  {
    VersionsAreTotal();
    var cs := Bare(p);
    if |cs| == 2 {
      assert SetAllows(cs, v) <==> Meets(cs[0], v) && Meets(cs[1], v);
    } else if |cs| == 1 {
      assert SetAllows(cs, v) <==> Meets(cs[0], v);
    }
  }

  lemma BoundIsOne(op: Op, p: Loose, v: Version)
    requires p.major.Some? && IsRelease(v)
    ensures |Bound(op, p)| == 1
    ensures SetAllows(Bound(op, p), v) <==> Meets(Bound(op, p)[0], v)
  {
  }

  /** Everything is below P, in P or above P, and no two of them. */
  lemma BelowWithinAbove(p: Loose, v: Version)
    requires p.major.Some? && HolesAtTheEnd(p) && IsRelease(v)
    ensures SetAllows(Bound(Lt, p), v) ==> !SetAllows(Bare(p), v) && !SetAllows(Bound(Gt, p), v)
    ensures SetAllows(Bare(p), v) ==> !SetAllows(Bound(Gt, p), v)
    ensures SetAllows(Bound(Lt, p), v) || SetAllows(Bare(p), v) || SetAllows(Bound(Gt, p), v)
  {
    VersionsAreTotal();
    BoundIsOne(Lt, p, v);
    BoundIsOne(Gt, p, v);
    BareMeansWhatItNames(p, v);
  }

  /** `>=` is exactly not `<`, and `<=` exactly not `>`, holes or not. */
  lemma OppositesSplitTheReleases(p: Loose, v: Version)
    requires p.major.Some? && HolesAtTheEnd(p) && IsRelease(v)
    ensures SetAllows(Bound(Gte, p), v) <==> !SetAllows(Bound(Lt, p), v)
    ensures SetAllows(Bound(Lte, p), v) <==> !SetAllows(Bound(Gt, p), v)
  {
    VersionsAreTotal();
    BoundIsOne(Lt, p, v);
    BoundIsOne(Gt, p, v);
    BoundIsOne(Lte, p, v);
    BoundIsOne(Gte, p, v);
  }

  /** A hyphen range is the two bounds written out, prereleases included. */
  lemma HyphenIsTwoBounds(from: Loose, to: Loose, v: Version)
    requires HolesAtTheEnd(from) && HolesAtTheEnd(to)
    ensures Hyphen(from, to).None? <==> to.major.None?
    ensures to.major.Some? && from.major.Some? ==>
              (SetAllows(Hyphen(from, to).value, v) <==> SetAllows(Bound(Gte, from) + Bound(Lte, to), v))
  {
    if to.major.Some? && from.major.Some? {
      assert Hyphen(from, to).value == Bound(Gte, from) + Bound(Lte, to);
    }
  }

  /** The code's own reading of `=P` with holes: the holes are zeros, so it is
      one version and not the range a bare P is. */
  lemma EqualsFillsHolesWithZeros(p: Loose, v: Version)
    requires p.major.Some? && IsRelease(v)
    ensures SetAllows(Bound(Eq, p), v) <==> v == Floor(p)
  {
    VersionsAreTotal();
    BoundIsOne(Eq, p, v);
  }

  /** A tilde on words with a hole in them is the bare words, as long as a
      number is named at all; with none, the bare word is everything and the
      tilde stops at 1.0.0. */
  lemma TildeIsBareIff(p: Loose)
    requires HolesAtTheEnd(p) && p.patch.None?
    ensures (forall v :: IsRelease(v) ==> (SetAllows(Tilde(p), v) <==> SetAllows(Bare(p), v))) <==> p.major.Some?
  {
    if p.major.Some? {
      forall v | IsRelease(v)
        ensures SetAllows(Tilde(p), v) <==> SetAllows(Bare(p), v)
      {
        TildeKeepsTheMinor(p, v);
        BareMeansWhatItNames(p, v);
      }
    } else {
      var one := Release(1, 0, 0);
      assert SetAllows(Bare(p), one);
      assert !Meets(Tilde(p)[1], one);
    }
  }

  // Ranges said of the versions alone.

  /** What an operator asks of a version. */
  ghost predicate Stands(op: Op, v: Version, at: Version) {
    match op
    case Lt => IsBelow(v, at)
    case Lte => IsBelow(v, at) || v == at
    case Gt => IsBelow(at, v)
    case Gte => IsBelow(at, v) || v == at
    case Eq => v == at
  }

  lemma MeetsIff(c: Comparator, v: Version)
    ensures Meets(c, v) <==> Stands(c.op, v, c.at)
  {
    VersionsAreTotal();
    BelowIff(v, c.at);
    BelowIff(c.at, v);
  }

  /** Some comparator is about a prerelease of the same three numbers. */
  ghost predicate IsNamed(cs: seq<Comparator>, v: Version) {
    exists c :: c in cs && c.at.pre != []
                && c.at.major == v.major && c.at.minor == v.minor && c.at.patch == v.patch
  }

  /** Every comparator stands, and a prerelease is named. */
  ghost predicate IsAsked(cs: seq<Comparator>, v: Version) {
    (v.pre == [] || IsNamed(cs, v)) && forall c :: c in cs ==> Stands(c.op, v, c.at)
  }

  lemma SetAllowsIff(cs: seq<Comparator>, v: Version)
    ensures SetAllows(cs, v) <==> IsAsked(cs, v)
  {
    forall c
      ensures Meets(c, v) <==> Stands(c.op, v, c.at)
    {
      MeetsIff(c, v);
    }
    if IsNamed(cs, v) {
      var c :| c in cs && c.at.pre != [] && c.at.major == v.major && c.at.minor == v.minor && c.at.patch == v.patch;
      var i :| 0 <= i < |cs| && cs[i] == c;
    }
  }

  /** A range allows a version if and only if one of its sets does: every
      comparator of it stands, and a prerelease is named by one of them. */
  lemma AllowsIff(range: seq<seq<Comparator>>, v: Version)
    ensures Allows(range, v) <==>
            exists cs :: cs in range && IsAsked(cs, v)
  {
    forall cs
      ensures SetAllows(cs, v) <==> IsAsked(cs, v)
    {
      SetAllowsIff(cs, v);
    }
    if cs :| cs in range && SetAllows(cs, v) {
      var i :| 0 <= i < |range| && range[i] == cs;
    }
  }

  /** The prereleases from one on that lead to the same release. */
  ghost predicate IsLaterPrerelease(p: Loose, v: Version) {
    && p.pre != [] && v.pre != []
    && v.major == OrZero(p.major) && v.minor == OrZero(p.minor) && v.patch == OrZero(p.patch)
    && (v.pre == p.pre || PreBelow(p.pre, v.pre))
  }

  lemma FromAPrerelease(p: Loose, to: Version, v: Version)
    requires v.pre != [] && to.pre == [] && NumbersBelow(Floor(p), to)
    ensures SetAllows([Comparator(Gte, Floor(p)), Comparator(Lt, to)], v) <==> IsLaterPrerelease(p, v)
  {
    var cs := [Comparator(Gte, Floor(p)), Comparator(Lt, to)];
    SetAllowsIff(cs, v);
    assert cs[0] in cs && cs[1] in cs;
    assert IsNamed(cs, v) <==> p.pre != [] && SameNumbers(Floor(p), v);
  }

  /** Of prereleases, a caret or a tilde on one allows those from it on that lead to
      the same release, and on anything else none. */
  lemma CaretAndTildeOfAPrerelease(p: Loose, v: Version)
    requires p.major.Some? && HolesAtTheEnd(p) && v.pre != []
    ensures SetAllows(Caret(p), v) <==> IsLaterPrerelease(p, v)
    ensures SetAllows(Tilde(p), v) <==> IsLaterPrerelease(p, v)
  {
    FromAPrerelease(p, Caret(p)[1].at, v);
    FromAPrerelease(p, Tilde(p)[1].at, v);
  }

  /** A version written in full allows that version, prerelease or not. */
  lemma BareOfAPrerelease(p: Loose, v: Version)
    requires v.pre != [] && HolesAtTheEnd(p)
    ensures SetAllows(Bare(p), v) <==>
            p.patch.Some? && v == Version(p.major.value, p.minor.value, p.patch.value, p.pre)
  {
    SetAllowsIff(Bare(p), v);
    if p.patch.Some? {
      assert Bare(p)[0] in Bare(p);
    }
  }
}
