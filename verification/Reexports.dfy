/** The names a script can be asked for, its own and those of the files it
    re-exports, gathered by a walk that shares what it has seen. */
module Reexports {
  import opened Wrappers

  /** What one file says: the names it exports, and for each re-export the
      file that is, or nothing for a built in or one that does not resolve. */
  datatype Analysis = Analysis(exports: set<string>, reexports: seq<Option<nat>>)

  /** The files of a tree, by number; a file that cannot be read or parsed has
      no analysis. */
  type Tree = nat -> Option<Analysis>

  /** How deep a chain of re-exports is followed. */
  const DEEP: nat := 8

  /** What the walk has gathered. `opens` is every file it opened, in order. */
  datatype Gathered = Gathered(found: set<string>, seen: set<nat>, opens: seq<nat>)

  function Walk(tree: Tree, at: nat, g: Gathered, left: nat): Result<Gathered, nat>
    decreases left, 1, 0
  {
    if at in g.seen then Ok(g)
    else if tree(at).None? then Err(at)
    else
      var here := g.(found := g.found + tree(at).value.exports, seen := g.seen + {at}, opens := g.opens + [at]);
      if left == 0 then Ok(here) else WalkAll(tree, tree(at).value.reexports, here, left)
  }

  function WalkAll(tree: Tree, next: seq<Option<nat>>, g: Gathered, left: nat): Result<Gathered, nat>
    requires left > 0
    decreases left, 0, |next|
  {
    if next == [] then Ok(g)
    else if next[0].None? then WalkAll(tree, next[1..], g, left)
    else
      match Walk(tree, next[0].value, g, left - 1)
      case Ok(h) => WalkAll(tree, next[1..], h, left)
      case Err(e) => Err(e)
  }

  function Letters(c: char): bool {
    'a' <= c <= 'z' || 'A' <= c <= 'Z' || c == '_' || c == '$'
  }

  const RESERVED: set<string> := {
    "await", "break", "case", "catch", "class", "const", "continue", "debugger", "default", "delete", "do", "else",
    "enum", "export", "extends", "false", "finally", "for", "function", "if", "import", "in", "instanceof", "new",
    "null", "return", "super", "switch", "this", "throw", "true", "try", "typeof", "var", "void", "while", "with",
    "yield"}

  /** Whether a name is one an es module can export under. */
  predicate Usable(name: string) {
    && name != []
    && Letters(name[0])
    && (forall i :: 1 <= i < |name| ==> Letters(name[i]) || '0' <= name[i] <= '9')
    && name !in RESERVED
  }

  /** A character's place in ASCII: a capital, a small letter, a dollar, an
      underscore, or a digit. */
  predicate IsNameByte(n: int, first: bool) {
    65 <= n <= 90 || 97 <= n <= 122 || n == 36 || n == 95 || (!first && 48 <= n <= 57)
  }

  lemma UsableIff(name: string)
    ensures Usable(name) <==>
            && 0 < |name| && name !in RESERVED
            && forall i :: 0 <= i < |name| ==> IsNameByte(name[i] as int, i == 0)
  {
    assert forall i :: 0 <= i < |name| ==>
             (IsNameByte(name[i] as int, i == 0) <==> Letters(name[i]) || (i > 0 && '0' <= name[i] <= '9'));
  }

  function Names(tree: Tree, from: nat): Result<set<string>, nat> {
    match Walk(tree, from, Gathered({}, {}, []), DEEP)
    case Ok(g) => Ok(set n | n in g.found && Usable(n))
    case Err(e) => Err(e)
  }

  // What is reachable, with no word about a walk.

  predicate Links(tree: Tree, a: nat, b: nat) {
    tree(a).Some? && Some(b) in tree(a).value.reexports
  }

  predicate IsPath(tree: Tree, path: seq<nat>) {
    path != [] && forall i :: 0 <= i < |path| - 1 ==> Links(tree, path[i], path[i + 1])
  }

  ghost predicate Reaches(tree: Tree, from: nat, to: nat) {
    exists path :: IsPath(tree, path) && path[0] == from && path[|path| - 1] == to
  }

  lemma ReachesItself(tree: Tree, at: nat)
    ensures Reaches(tree, at, at)
  {
    assert IsPath(tree, [at]);
  }

  lemma ReachesOn(tree: Tree, from: nat, a: nat, b: nat)
    requires Reaches(tree, from, a) && Links(tree, a, b)
    ensures Reaches(tree, from, b)
  {
    var path :| IsPath(tree, path) && path[0] == from && path[|path| - 1] == a;
    assert IsPath(tree, path + [b]);
  }

  /** Nothing is reached out of a set that every link stays in. */
  lemma {:induction false} ClosedHolds(tree: Tree, closed: set<nat>, path: seq<nat>)
    requires forall a, b :: a in closed && Links(tree, a, b) ==> b in closed
    requires IsPath(tree, path) && path[0] in closed
    ensures path[|path| - 1] in closed
  {
    if |path| > 1 {
      assert Links(tree, path[0], path[1]);
      ClosedHolds(tree, closed, path[1..]);
    }
  }

  // Every walk.

  /** Each file was opened once, the names are theirs, and all of them were
      reached. */
  ghost predicate Honest(tree: Tree, from: nat, g: Gathered) {
    && (forall f :: f in g.seen <==> f in g.opens)
    && (forall i, j :: 0 <= i < j < |g.opens| ==> g.opens[i] != g.opens[j])
    && (forall f :: f in g.seen ==> tree(f).Some? && Reaches(tree, from, f))
    && (forall n :: n in g.found <==> exists f :: f in g.seen && tree(f).Some? && n in tree(f).value.exports)
  }

  lemma HonestStep(tree: Tree, from: nat, at: nat, g: Gathered)
    requires Honest(tree, from, g) && Reaches(tree, from, at)
    requires at !in g.seen && tree(at).Some?
    ensures Honest(tree, from, g.(found := g.found + tree(at).value.exports, seen := g.seen + {at}, opens := g.opens + [at]))
  {
    var here := g.(found := g.found + tree(at).value.exports, seen := g.seen + {at}, opens := g.opens + [at]);
    assert at in here.seen;
    forall n
      ensures n in here.found <==> exists f :: f in here.seen && tree(f).Some? && n in tree(f).value.exports
    {
      if n in g.found {
        var f :| f in g.seen && tree(f).Some? && n in tree(f).value.exports;
        assert f in here.seen;
      }
    }
  }

  lemma {:induction false} WalkIsHonest(tree: Tree, from: nat, at: nat, g: Gathered, left: nat)
    requires Honest(tree, from, g) && Reaches(tree, from, at)
    ensures match Walk(tree, at, g, left)
            case Ok(h) => Honest(tree, from, h) && at in h.seen && g.seen <= h.seen
            case Err(e) => tree(e).None? && Reaches(tree, from, e)
    decreases left, 1, 0
  {
    if at !in g.seen && tree(at).Some? {
      HonestStep(tree, from, at, g);
      var here := g.(found := g.found + tree(at).value.exports, seen := g.seen + {at}, opens := g.opens + [at]);
      if left > 0 {
        forall o | o in tree(at).value.reexports && o.Some?
          ensures Reaches(tree, from, o.value)
        {
          assert Links(tree, at, o.value);
          ReachesOn(tree, from, at, o.value);
        }
        WalkAllIsHonest(tree, from, tree(at).value.reexports, here, left);
      }
    }
  }

  lemma {:induction false} WalkAllIsHonest(tree: Tree, from: nat, next: seq<Option<nat>>, g: Gathered, left: nat)
    requires left > 0 && Honest(tree, from, g)
    requires forall o :: o in next && o.Some? ==> Reaches(tree, from, o.value)
    ensures match WalkAll(tree, next, g, left)
            case Ok(h) => Honest(tree, from, h) && g.seen <= h.seen && (forall o :: o in next && o.Some? ==> o.value in h.seen)
            case Err(e) => tree(e).None? && Reaches(tree, from, e)
    decreases left, 0, |next|
  {
    if next != [] {
      assert next == [next[0]] + next[1..];
      if next[0].None? {
        WalkAllIsHonest(tree, from, next[1..], g, left);
      } else {
        assert next[0] in next;
        WalkIsHonest(tree, from, next[0].value, g, left - 1);
        var one := Walk(tree, next[0].value, g, left - 1);
        if one.Ok? {
          WalkAllIsHonest(tree, from, next[1..], one.value, left);
        }
      }
    }
  }

  // Walks of few files.

  /** Every link of a file that is done goes to a file that was seen; the files
      the walk is still inside of are on the stack. */
  ghost predicate Done(tree: Tree, g: Gathered, stack: set<nat>) {
    && stack <= g.seen
    && (forall a, b :: a in g.seen && a !in stack && Links(tree, a, b) ==> b in g.seen)
  }

  lemma SubsetIsAll(small: set<nat>, large: set<nat>)
    requires small <= large && |large| <= |small|
    ensures small == large
  {
    var rest := large - small;
    assert large == small + rest;
    assert |large| == |small| + |rest|;
  }

  /** The state after a file was opened. */
  function Opened(tree: Tree, at: nat, g: Gathered): Gathered
    requires tree(at).Some?
  {
    g.(found := g.found + tree(at).value.exports, seen := g.seen + {at}, opens := g.opens + [at])
  }

  lemma LinksAreReached(tree: Tree, from: nat, at: nat)
    requires Reaches(tree, from, at) && tree(at).Some?
    ensures forall b :: Links(tree, at, b) ==> Reaches(tree, from, b)
    ensures forall o :: o in tree(at).value.reexports && o.Some? ==> Reaches(tree, from, o.value)
  {
    forall b | Links(tree, at, b)
      ensures Reaches(tree, from, b)
    {
      ReachesOn(tree, from, at, b);
    }
    forall o | o in tree(at).value.reexports && o.Some?
      ensures Reaches(tree, from, o.value)
    {
      assert Links(tree, at, o.value);
    }
  }

  /** At the depth limit the stack is every file there is. */
  lemma DoneAtTheLimit(tree: Tree, from: nat, at: nat, g: Gathered, stack: set<nat>, all: set<nat>)
    requires Reaches(tree, from, at) && tree(at).Some? && at !in g.seen
    requires Done(tree, g, stack) && |stack| == DEEP
    requires forall f :: f in g.seen ==> Reaches(tree, from, f)
    requires (forall f :: Reaches(tree, from, f) ==> f in all) && |all| <= DEEP + 1
    ensures Done(tree, Opened(tree, at, g), stack)
  {
    var inside := stack + {at};
    assert |inside| == |stack| + 1;
    SubsetIsAll(inside, all);
    LinksAreReached(tree, from, at);
  }

  /** A file whose links were all seen comes off the stack. */
  lemma DoneOffTheStack(tree: Tree, at: nat, h: Gathered, stack: set<nat>)
    requires Done(tree, h, stack + {at}) && forall b :: Links(tree, at, b) ==> b in h.seen
    ensures Done(tree, h, stack)
  {
  }

  lemma DoneOnTheStack(tree: Tree, at: nat, g: Gathered, stack: set<nat>)
    requires Done(tree, g, stack) && tree(at).Some? && at !in g.seen
    ensures Done(tree, Opened(tree, at, g), stack + {at}) && |stack + {at}| == |stack| + 1
  {
  }

  /** The files the walk is inside of are all different, so with nine files to
      reach, a stack of nine is every one of them and the depth limit cuts
      nothing off. */
  lemma {:induction false} WalkIsDone(tree: Tree, from: nat, at: nat, g: Gathered, left: nat, stack: set<nat>, all: set<nat>)
    requires Honest(tree, from, g) && Reaches(tree, from, at)
    requires Done(tree, g, stack) && |stack| + left == DEEP
    requires (forall f :: Reaches(tree, from, f) ==> f in all) && |all| <= DEEP + 1
    ensures match Walk(tree, at, g, left)
            case Ok(h) => Done(tree, h, stack)
            case Err(_) => true
    decreases left, 1, 0
  {
    if at !in g.seen && tree(at).Some? {
      if left == 0 {
        DoneAtTheLimit(tree, from, at, g, stack, all);
      } else {
        var here := Opened(tree, at, g);
        HonestStep(tree, from, at, g);
        LinksAreReached(tree, from, at);
        DoneOnTheStack(tree, at, g, stack);
        WalkAllIsHonest(tree, from, tree(at).value.reexports, here, left);
        WalkAllIsDone(tree, from, tree(at).value.reexports, here, left, stack + {at}, all);
        var walk := WalkAll(tree, tree(at).value.reexports, here, left);
        if walk.Ok? {
          DoneOffTheStack(tree, at, walk.value, stack);
        }
      }
    }
  }

  lemma {:induction false} WalkAllIsDone(tree: Tree, from: nat, next: seq<Option<nat>>, g: Gathered, left: nat,
                                         stack: set<nat>, all: set<nat>)
    requires left > 0 && Honest(tree, from, g)
    requires forall o :: o in next && o.Some? ==> Reaches(tree, from, o.value)
    requires Done(tree, g, stack) && |stack| + left == DEEP + 1
    requires (forall f :: Reaches(tree, from, f) ==> f in all) && |all| <= DEEP + 1
    ensures match WalkAll(tree, next, g, left)
            case Ok(h) => Done(tree, h, stack)
            case Err(_) => true
    decreases left, 0, |next|
  {
    if next != [] {
      assert next == [next[0]] + next[1..];
      if next[0].None? {
        WalkAllIsDone(tree, from, next[1..], g, left, stack, all);
      } else {
        assert next[0] in next;
        WalkIsHonest(tree, from, next[0].value, g, left - 1);
        WalkIsDone(tree, from, next[0].value, g, left - 1, stack, all);
        var one := Walk(tree, next[0].value, g, left - 1);
        if one.Ok? {
          WalkAllIsDone(tree, from, next[1..], one.value, left, stack, all);
        }
      }
    }
  }

  // The results.

  /** A name a file exports, and a module can. */
  ghost predicate IsName(tree: Tree, f: nat, n: string) {
    tree(f).Some? && n in tree(f).value.exports && Usable(n)
  }

  /** On any graph of files, cycles and all: each file is opened at most once,
      every name given is a usable one of a file that is reached, and a failure
      is the failure of a file that is reached. */
  lemma NamesAreHonest(tree: Tree, from: nat)
    ensures var names := Names(tree, from);
            && (names.Ok? ==> forall n :: n in names.value ==> exists f :: Reaches(tree, from, f) && IsName(tree, f, n))
            && (names.Err? ==> Reaches(tree, from, names.error) && tree(names.error).None?)
    ensures var walk := Walk(tree, from, Gathered({}, {}, []), DEEP);
            walk.Ok? ==> forall i, j :: 0 <= i < j < |walk.value.opens| ==> walk.value.opens[i] != walk.value.opens[j]
  {
    ReachesItself(tree, from);
    var start := Gathered({}, {}, []);
    assert Honest(tree, from, start);
    WalkIsHonest(tree, from, from, start, DEEP);
    var walk := Walk(tree, from, start, DEEP);
    if walk.Ok? {
      forall n | n in Names(tree, from).value
        ensures exists f :: Reaches(tree, from, f) && IsName(tree, f, n)
      {
        var f :| f in walk.value.seen && tree(f).Some? && n in tree(f).value.exports;
        assert IsName(tree, f, n);
      }
    }
  }

  /** Where at most nine files are reached, the names are all of theirs. */
  lemma NamesOfNineFilesAreAll(tree: Tree, from: nat, all: set<nat>)
    requires (forall f :: Reaches(tree, from, f) ==> f in all) && |all| <= 9
    ensures var names := Names(tree, from);
            && (names.Ok? ==> forall n :: n in names.value <==> exists f :: Reaches(tree, from, f) && IsName(tree, f, n))
            && (names.Err? <==> exists f :: Reaches(tree, from, f) && tree(f).None?)
  {
    NamesAreHonest(tree, from);
    ReachesItself(tree, from);
    var start := Gathered({}, {}, []);
    assert Honest(tree, from, start) && Done(tree, start, {});
    WalkIsHonest(tree, from, from, start, DEEP);
    WalkIsDone(tree, from, from, start, DEEP, {}, all);
    var walk := Walk(tree, from, start, DEEP);
    if walk.Ok? {
      var seen := walk.value.seen;
      forall n, f | Reaches(tree, from, f) && IsName(tree, f, n)
        ensures n in Names(tree, from).value
      {
        var path :| IsPath(tree, path) && path[0] == from && path[|path| - 1] == f;
        ClosedHolds(tree, seen, path);
        assert f in seen;
      }
      forall f | Reaches(tree, from, f)
        ensures tree(f).Some?
      {
        var path :| IsPath(tree, path) && path[0] == from && path[|path| - 1] == f;
        ClosedHolds(tree, seen, path);
      }
    }
  }

  // With a tenth file the limit can cut off one that is two steps away.

  /** File 0 re-exports 1 and 8, 1 to 7 the next one each, and 8 the only file
      with a name. */
  function Detour(f: nat): Option<Analysis> {
    if f == 0 then Some(Analysis({}, [Some(1), Some(8)]))
    else if f < 9 then Some(Analysis({}, [Some(f + 1)]))
    else if f == 9 then Some(Analysis({"x"}, []))
    else None
  }

  ghost predicate SeenBelow(g: Gathered, k: nat) {
    forall f: nat :: f in g.seen <==> f < k
  }

  lemma OneReexport(tree: Tree, at: nat, exports: set<string>, next: nat, g: Gathered, left: nat)
    requires at !in g.seen && tree(at) == Some(Analysis(exports, [Some(next)])) && left > 0
    ensures Walk(tree, at, g, left)
         == Walk(tree, next, Gathered(g.found + exports, g.seen + {at}, g.opens + [at]), left - 1)
  {
    var here := Gathered(g.found + exports, g.seen + {at}, g.opens + [at]);
    assert Walk(tree, at, g, left) == WalkAll(tree, [Some(next)], here, left);
    assert [Some(next)][1..] == [];
    var one := Walk(tree, next, here, left - 1);
    if one.Ok? {
      assert WalkAll(tree, [], one.value, left) == one;
    }
  }

  lemma TwoReexports(tree: Tree, at: nat, a: nat, b: nat, g: Gathered, left: nat)
    requires at !in g.seen && tree(at) == Some(Analysis({}, [Some(a), Some(b)])) && left > 0
    requires var here := Gathered(g.found + {}, g.seen + {at}, g.opens + [at]);
             var one := Walk(tree, a, here, left - 1);
             one.Ok? && b in one.value.seen
    ensures Walk(tree, at, g, left)
         == Walk(tree, a, Gathered(g.found + {}, g.seen + {at}, g.opens + [at]), left - 1)
  {
    var here := Gathered(g.found + {}, g.seen + {at}, g.opens + [at]);
    var one := Walk(tree, a, here, left - 1);
    assert Walk(tree, at, g, left) == WalkAll(tree, [Some(a), Some(b)], here, left);
    assert [Some(a), Some(b)][1..] == [Some(b)] && [Some(b)][1..] == [];
    assert Walk(tree, b, one.value, left - 1) == one;
    assert WalkAll(tree, [Some(b)], one.value, left) == one;
  }

  /** The long way round uses up the depth at file 8, which is then seen. */
  lemma {:induction false} LongWay(k: nat, g: Gathered)
    requires 1 <= k <= 8 && SeenBelow(g, k)
    ensures var walk := Walk(Detour, k, g, 8 - k);
            walk.Ok? && SeenBelow(walk.value, 9) && walk.value.found == g.found
    decreases 8 - k
  {
    if k < 8 {
      OneReexport(Detour, k, {}, k + 1, g, 8 - k);
      LongWay(k + 1, Gathered(g.found + {}, g.seen + {k}, g.opens + [k]));
    }
  }

  lemma LetterIsUsable()
    ensures Usable("x")
  {
    assert forall r :: r in RESERVED ==> |r| >= 2;
  }

  lemma TwoStepsAway()
    ensures IsPath(Detour, [0, 8, 9])
  {
    assert Detour(0).value.reexports[1] == Some(8);
    assert Detour(8).value.reexports[0] == Some(9);
  }

  /** The name is two re-exports away and is not among the names. */
  lemma TwoStepsAwayIsMissed()
    ensures IsPath(Detour, [0, 8, 9]) && IsName(Detour, 9, "x")
    ensures Names(Detour, 0) == Ok({})
  {
    LetterIsUsable();
    TwoStepsAway();
    var start := Gathered({}, {}, []);
    var here := Gathered(start.found + {}, start.seen + {0}, start.opens + [0]);
    LongWay(1, here);
    TwoReexports(Detour, 0, 1, 8, start, 8);
    var walk := Walk(Detour, 0, start, DEEP);
    assert walk.Ok? && walk.value.found == {};
    assert Names(Detour, 0).value == {};
  }
}
