/** Three way comparisons, and what makes one a total order. */
module Orders {

  datatype Order = Less | Equal | Greater

  function Flip(o: Order): Order {
    match o
    case Less => Greater
    case Equal => Equal
    case Greater => Less
  }

  /** The second comparison decides only what the first leaves equal. */
  function Or(first: Order, second: Order): Order {
    if first == Equal then second else first
  }

  function CompareInts(a: int, b: int): Order {
    if a < b then Less else if a == b then Equal else Greater
  }

  /** Equal means the same value, the other two mirror each other, and less is
      transitive. */
  ghost predicate IsTotal<T(!new)>(cmp: (T, T) -> Order) {
    && (forall x, y :: cmp(x, y) == Equal <==> x == y)
    && (forall x, y :: cmp(y, x) == Flip(cmp(x, y)))
    && (forall x, y, z :: cmp(x, y) == Less && cmp(y, z) == Less ==> cmp(x, z) == Less)
  }

  /** One element after the other, and the shorter of two that agree is less. */
  function Lexicographic<T>(cmp: (T, T) -> Order, a: seq<T>, b: seq<T>): Order {
    if a == [] && b == [] then Equal
    else if a == [] then Less
    else if b == [] then Greater
    else Or(cmp(a[0], b[0]), Lexicographic(cmp, a[1..], b[1..]))
  }

  lemma {:induction false} LexEqual<T(!new)>(cmp: (T, T) -> Order, a: seq<T>, b: seq<T>)
    requires IsTotal(cmp)
    ensures Lexicographic(cmp, a, b) == Equal <==> a == b
  {
    if a != [] && b != [] {
      LexEqual(cmp, a[1..], b[1..]);
      assert a == [a[0]] + a[1..] && b == [b[0]] + b[1..];
    }
  }

  lemma {:induction false} LexFlips<T(!new)>(cmp: (T, T) -> Order, a: seq<T>, b: seq<T>)
    requires IsTotal(cmp)
    ensures Lexicographic(cmp, b, a) == Flip(Lexicographic(cmp, a, b))
  {
    if a != [] && b != [] {
      LexFlips(cmp, a[1..], b[1..]);
    }
  }

  lemma {:induction false} LexTransitive<T(!new)>(cmp: (T, T) -> Order, a: seq<T>, b: seq<T>, c: seq<T>)
    requires IsTotal(cmp)
    requires Lexicographic(cmp, a, b) == Less && Lexicographic(cmp, b, c) == Less
    ensures Lexicographic(cmp, a, c) == Less
  {
    if a != [] && b != [] && c != [] {
      if cmp(a[0], b[0]) == Equal && cmp(b[0], c[0]) == Equal {
        LexTransitive(cmp, a[1..], b[1..], c[1..]);
      }
    }
  }

  lemma LexIsTotal<T(!new)>(cmp: (T, T) -> Order, lex: (seq<T>, seq<T>) -> Order)
    requires IsTotal(cmp)
    requires forall a, b :: lex(a, b) == Lexicographic(cmp, a, b)
    ensures IsTotal(lex)
  {
    forall a, b
      ensures lex(a, b) == Equal <==> a == b
      ensures lex(b, a) == Flip(lex(a, b))
    {
      LexEqual(cmp, a, b);
      LexFlips(cmp, a, b);
    }
    forall a, b, c | lex(a, b) == Less && lex(b, c) == Less
      ensures lex(a, c) == Less
    {
      LexTransitive(cmp, a, b, c);
    }
  }

  /** The first place where two lists are not the same. */
  ghost predicate FirstApart<T(!new)>(a: seq<T>, b: seq<T>, i: nat) {
    i < |a| && i < |b| && a[..i] == b[..i] && a[i] != b[i]
  }

  /** A list comes before another if and only if it is the beginning of it, or is
      less at the first place where they are not the same. */
  lemma {:induction false} LexLessIff<T(!new)>(cmp: (T, T) -> Order, a: seq<T>, b: seq<T>)
    requires forall x, y :: cmp(x, y) == Equal <==> x == y
    ensures Lexicographic(cmp, a, b) == Less <==>
            || a < b
            || exists i: nat :: FirstApart(a, b, i) && cmp(a[i], b[i]) == Less
  {
    if a != [] && b != [] && a[0] == b[0] {
      LexLessIff(cmp, a[1..], b[1..]);
      assert a == [a[0]] + a[1..] && b == [a[0]] + b[1..];
      assert a < b <==> a[1..] < b[1..];
      forall i: nat | FirstApart(a[1..], b[1..], i)
        ensures FirstApart(a, b, i + 1)
      {
        assert a[..i + 1] == [a[0]] + a[1..][..i] && b[..i + 1] == [a[0]] + b[1..][..i];
      }
      forall i: nat | FirstApart(a, b, i)
        ensures i > 0 && FirstApart(a[1..], b[1..], i - 1)
      {
        assert a[..i][1..] == a[1..][..i - 1] && b[..i][1..] == b[1..][..i - 1];
      }
      if i: nat :| FirstApart(a[1..], b[1..], i) && cmp(a[1..][i], b[1..][i]) == Less {
        assert FirstApart(a, b, i + 1) && cmp(a[i + 1], b[i + 1]) == Less;
      }
      if i: nat :| FirstApart(a, b, i) && cmp(a[i], b[i]) == Less {
        assert FirstApart(a[1..], b[1..], i - 1) && cmp(a[1..][i - 1], b[1..][i - 1]) == Less;
      }
    } else if a != [] && b != [] {
      assert FirstApart(a, b, 0);
      assert forall i: nat :: FirstApart(a, b, i) ==> i == 0 by {
        assert forall i: nat :: 0 < i < |a| && i < |b| ==> a[..i][0] == a[0] && b[..i][0] == b[0];
      }
    }
  }

  function CompareChars(a: char, b: char): Order {
    CompareInts(a as int, b as int)
  }

  function CompareTexts(a: string, b: string): Order {
    Lexicographic(CompareChars, a, b)
  }

  lemma TextsAreTotal()
    ensures IsTotal(CompareTexts)
  {
    LexIsTotal(CompareChars, CompareTexts);
  }

  /** Texts whose first parts are as long as each other are decided by those
      unless they are equal. */
  lemma {:induction false} LexConcat<T(!new)>(cmp: (T, T) -> Order, a: seq<T>, b: seq<T>, c: seq<T>, d: seq<T>)
    requires |a| == |c|
    ensures Lexicographic(cmp, a + b, c + d) == Or(Lexicographic(cmp, a, c), Lexicographic(cmp, b, d))
  {
    if a == [] {
      assert a + b == b && c + d == d;
    } else {
      assert (a + b)[1..] == a[1..] + b && (c + d)[1..] == c[1..] + d;
      LexConcat(cmp, a[1..], b, c[1..], d);
    }
  }
}
