/** The places two JSON bodies differ, named as JSON pointers (section 3 of
    RFC 6901) into them. */
module JsonDiff {
  import opened Wrappers
  import opened Orders
  import opened Decimals
  import opened Texts

  /** An object's fields are sorted by key, and no key is there twice. */
  datatype Json =
    | Null
    | Bool(b: bool)
    | Number(parsed: string)
    | Str(s: string)
    | Array(items: seq<Json>)
    | Object(fields: seq<Field>)

  datatype Field = Field(key: string, value: Json)

  /** One place: where it is, and what each side has there. */
  datatype Place = Place(path: string, want: Option<Json>, got: Option<Json>)

  predicate AreSorted(fields: seq<Field>) {
    forall i, j :: 0 <= i < j < |fields| ==> CompareTexts(fields[i].key, fields[j].key) == Less
  }

  predicate IsSorted(v: Json) {
    match v
    case Array(items) => forall i :: 0 <= i < |items| ==> IsSorted(items[i])
    case Object(fields) => AreSorted(fields) && forall i :: 0 <= i < |fields| ==> IsSorted(fields[i].value)
    case _ => true
  }

  /** A key as a pointer writes it. */
  function Escaped(key: string): string {
    if key == [] then []
    else (if key[0] == '~' then "~0" else if key[0] == '/' then "~1" else [key[0]]) + Escaped(key[1..])
  }

  function Weight(v: Json): nat {
    match v
    case Array(items) => 1 + ItemsWeight(items)
    case Object(fields) => 1 + FieldsWeight(fields)
    case _ => 1
  }

  function ItemsWeight(items: seq<Json>): nat {
    if items == [] then 0 else Weight(items[0]) + ItemsWeight(items[1..])
  }

  function FieldsWeight(fields: seq<Field>): nat {
    if fields == [] then 0 else Weight(fields[0].value) + FieldsWeight(fields[1..])
  }

  function SideWeight(v: Option<Json>): nat {
    if v.None? then 0 else Weight(v.value)
  }

  /** Both sides walked together; only what differs is named. */
  function Walk(path: string, want: Option<Json>, got: Option<Json>): seq<Place>
    decreases SideWeight(want) + SideWeight(got), 0
  {
    if want.Some? && got.Some? && want.value.Object? && got.value.Object? then
      WalkFields(path, want.value.fields, got.value.fields)
    else if want.Some? && got.Some? && want.value.Array? && got.value.Array?
            && |want.value.items| == |got.value.items| then
      WalkItems(path, want.value.items, got.value.items, 0)
    else if want != got then [Place(path, want, got)]
    else []
  }

  /** The least key either side has, what each has under it, and the fields
      past it. */
  datatype Key = Key(key: string, want: Option<Json>, got: Option<Json>, wantRest: seq<Field>, gotRest: seq<Field>)

  function LeastKey(want: seq<Field>, got: seq<Field>): (k: Key)
    requires want != [] || got != []
    ensures SideWeight(k.want) + SideWeight(k.got) + FieldsWeight(k.wantRest) + FieldsWeight(k.gotRest)
         == FieldsWeight(want) + FieldsWeight(got)
    ensures |k.wantRest| + |k.gotRest| < |want| + |got|
  {
    if got == [] || (want != [] && CompareTexts(want[0].key, got[0].key) == Less) then
      Key(want[0].key, Some(want[0].value), None, want[1..], got)
    else if want == [] || CompareTexts(want[0].key, got[0].key) == Greater then
      Key(got[0].key, None, Some(got[0].value), want, got[1..])
    else
      Key(want[0].key, Some(want[0].value), Some(got[0].value), want[1..], got[1..])
  }

  /** Every key either side has, in order. */
  function WalkFields(path: string, want: seq<Field>, got: seq<Field>): seq<Place>
    decreases FieldsWeight(want) + FieldsWeight(got), 1, |want| + |got|
  {
    if want == [] && got == [] then []
    else
      var k := LeastKey(want, got);
      Walk(path + "/" + Escaped(k.key), k.want, k.got) + WalkFields(path, k.wantRest, k.gotRest)
  }

  function WalkItems(path: string, want: seq<Json>, got: seq<Json>, from: nat): seq<Place>
    requires |want| == |got|
    decreases ItemsWeight(want) + ItemsWeight(got), 1, |want|
  {
    if want == [] then []
    else
      Walk(path + "/" + Decimal(from), Some(want[0]), Some(got[0])) + WalkItems(path, want[1..], got[1..], from + 1)
  }

  // Nothing is named exactly when nothing differs.

  lemma {:induction false} WalkNamesNothingIff(path: string, want: Option<Json>, got: Option<Json>)
    requires SortedSide(want) && SortedSide(got)
    ensures Walk(path, want, got) == [] <==> want == got
    decreases SideWeight(want) + SideWeight(got), 0
  {
    if want.Some? && got.Some? && want.value.Object? && got.value.Object? {
      FieldsNameNothingIff(path, want.value.fields, got.value.fields);
    } else if want.Some? && got.Some? && want.value.Array? && got.value.Array?
              && |want.value.items| == |got.value.items| {
      ItemsNameNothingIff(path, want.value.items, got.value.items, 0);
    }
  }

  ghost predicate SortedFields(fields: seq<Field>) {
    AreSorted(fields) && forall i :: 0 <= i < |fields| ==> IsSorted(fields[i].value)
  }

  ghost predicate SortedSide(v: Option<Json>) {
    v.Some? ==> IsSorted(v.value)
  }

  ghost predicate IsApart(key: string, fields: seq<Field>) {
    forall f :: f in fields ==> f.key != key
  }

  /** The least key is in neither of the rests. */
  lemma LeastKeyIsApart(want: seq<Field>, got: seq<Field>)
    requires SortedFields(want) && SortedFields(got) && (want != [] || got != [])
    ensures var k := LeastKey(want, got);
            && IsApart(k.key, k.wantRest) && IsApart(k.key, k.gotRest)
            && SortedFields(k.wantRest) && SortedFields(k.gotRest)
            && SortedSide(k.want) && SortedSide(k.got)
  {
    TextsAreTotal();
  }

  lemma LeastKeyDecides(want: seq<Field>, got: seq<Field>)
    requires SortedFields(want) && SortedFields(got) && (want != [] || got != [])
    ensures var k := LeastKey(want, got);
            want == got <==> k.want == k.got && k.wantRest == k.gotRest
  {
    TextsAreTotal();
    if want != [] && got != [] {
      assert want == [want[0]] + want[1..] && got == [got[0]] + got[1..];
    }
  }

  lemma {:induction false} FieldsNameNothingIff(path: string, want: seq<Field>, got: seq<Field>)
    requires SortedFields(want) && SortedFields(got)
    ensures WalkFields(path, want, got) == [] <==> want == got
    decreases FieldsWeight(want) + FieldsWeight(got), 1, |want| + |got|
  {
    if want != [] || got != [] {
      var k := LeastKey(want, got);
      LeastKeyIsApart(want, got);
      LeastKeyDecides(want, got);
      WalkNamesNothingIff(path + "/" + Escaped(k.key), k.want, k.got);
      FieldsNameNothingIff(path, k.wantRest, k.gotRest);
    }
  }

  lemma {:induction false} ItemsNameNothingIff(path: string, want: seq<Json>, got: seq<Json>, from: nat)
    requires |want| == |got|
    requires forall i :: 0 <= i < |want| ==> IsSorted(want[i]) && IsSorted(got[i])
    ensures WalkItems(path, want, got, from) == [] <==> want == got
    decreases ItemsWeight(want) + ItemsWeight(got), 1, |want|
  {
    if want != [] {
      WalkNamesNothingIff(path + "/" + Decimal(from), Some(want[0]), Some(got[0]));
      ItemsNameNothingIff(path, want[1..], got[1..], from + 1);
      assert want == [want[0]] + want[1..] && got == [got[0]] + got[1..];
    }
  }

  // No place is named twice.

  lemma {:induction false} EscapedHasNoSlash(key: string)
    ensures '/' !in Escaped(key)
  {
    if key != [] {
      EscapedHasNoSlash(key[1..]);
    }
  }

  /** What a key is escaped to says what the key was. */
  lemma {:induction false} EscapedOnce(a: string, b: string)
    requires Escaped(a) == Escaped(b)
    ensures a == b
  {
    if a != [] && b != [] {
      var m := if a[0] == '~' || a[0] == '/' then 2 else 1;
      var n := if b[0] == '~' || b[0] == '/' then 2 else 1;
      assert Escaped(a)[m..] == Escaped(a[1..]) && Escaped(b)[n..] == Escaped(b[1..]);
      assert Escaped(a)[0] == Escaped(b)[0];
      if m == 2 {
        assert Escaped(a)[1] == Escaped(b)[1];
      }
      EscapedOnce(a[1..], b[1..]);
      assert a == [a[0]] + a[1..] && b == [b[0]] + b[1..];
    }
  }

  lemma {:induction false} DecimalHasNoSlash(n: nat)
    ensures '/' !in Decimal(n)
  {
    if n >= 10 {
      DecimalHasNoSlash(n / 10);
    }
  }

  lemma {:induction false} DecimalOnce(m: nat, n: nat)
    requires Decimal(m) == Decimal(n)
    ensures m == n
  {
    var a, b := Decimal(m), Decimal(n);
    assert a[|a| - 1] == Digit(m % 10) && b[|b| - 1] == Digit(n % 10);
    if m >= 10 && n >= 10 {
      assert a[..|a| - 1] == Decimal(m / 10) && b[..|b| - 1] == Decimal(n / 10);
      DecimalOnce(m / 10, n / 10);
    }
  }

  /** The path is this one or goes on below it. */
  predicate IsUnder(path: string, p: string) {
    path <= p && (|p| > |path| ==> p[|path|] == '/')
  }

  /** The next step a pointer takes below a path. */
  function Step(path: string, p: string): string {
    if |path| < |p| then Until('/', p[|path| + 1..]) else []
  }

  lemma StepBelow(path: string, step: string, p: string)
    requires '/' !in step && IsUnder(path + "/" + step, p)
    ensures IsUnder(path, p) && |path| < |p| && Step(path, p) == step
  {
    var whole := path + "/" + step;
    assert p == whole + p[|whole|..];
    assert p[|path| + 1..] == step + p[|whole|..];
    UntilOfPlain('/', step, p[|whole|..]);
    assert whole[|path|] == '/';
  }

  ghost predicate Distinct(places: seq<Place>) {
    forall i, j :: 0 <= i < j < |places| ==> places[i].path != places[j].path
  }

  ghost predicate AllUnder(path: string, places: seq<Place>) {
    forall i :: 0 <= i < |places| ==> IsUnder(path, places[i].path)
  }

  /** Every place is below the path, by a step that is one of these. */
  ghost predicate StepsAmong(path: string, places: seq<Place>, steps: iset<string>) {
    forall i :: 0 <= i < |places| ==>
                  IsUnder(path, places[i].path) && |path| < |places[i].path| && Step(path, places[i].path) in steps
  }

  lemma Together(path: string, step: string, first: seq<Place>, rest: seq<Place>, steps: iset<string>)
    requires '/' !in step && step !in steps
    requires Distinct(first) && AllUnder(path + "/" + step, first)
    requires Distinct(rest) && StepsAmong(path, rest, steps)
    ensures Distinct(first + rest) && StepsAmong(path, first + rest, steps + iset{step})
  {
    var all := first + rest;
    forall i | 0 <= i < |first|
      ensures IsUnder(path, first[i].path) && |path| < |first[i].path| && Step(path, first[i].path) == step
    {
      StepBelow(path, step, first[i].path);
    }
  }

  ghost function Keys(want: seq<Field>, got: seq<Field>): iset<string> {
    iset f | f in want || f in got :: Escaped(f.key)
  }

  ghost function Indexes(from: nat): iset<string> {
    iset i: nat | i >= from :: Decimal(i)
  }

  lemma MoreSteps(path: string, places: seq<Place>, steps: iset<string>, more: iset<string>)
    requires StepsAmong(path, places, steps) && steps <= more
    ensures StepsAmong(path, places, more)
  {
  }

  ghost predicate Differ(places: seq<Place>) {
    forall i :: 0 <= i < |places| ==> places[i].want != places[i].got
  }

  /** Each place named is another place, below the path the walk was given, and
      the two sides are different there. */
  lemma {:induction false} WalkNamesEachOnce(path: string, want: Option<Json>, got: Option<Json>)
    requires SortedSide(want) && SortedSide(got)
    ensures Distinct(Walk(path, want, got)) && Differ(Walk(path, want, got))
    ensures AllUnder(path, Walk(path, want, got))
    decreases SideWeight(want) + SideWeight(got), 0
  {
    if want.Some? && got.Some? && want.value.Object? && got.value.Object? {
      FieldsNameEachOnce(path, want.value.fields, got.value.fields);
    } else if want.Some? && got.Some? && want.value.Array? && got.value.Array?
              && |want.value.items| == |got.value.items| {
      ItemsNameEachOnce(path, want.value.items, got.value.items, 0);
    }
  }

  lemma StepIsApart(key: string, want: seq<Field>, got: seq<Field>)
    requires IsApart(key, want) && IsApart(key, got)
    ensures Escaped(key) !in Keys(want, got)
  {
    if Escaped(key) in Keys(want, got) {
      var f :| (f in want || f in got) && Escaped(f.key) == Escaped(key);
      EscapedOnce(f.key, key);
    }
  }

  lemma KeysOfBoth(want: seq<Field>, got: seq<Field>)
    requires want != [] || got != []
    ensures var k := LeastKey(want, got);
            Keys(k.wantRest, k.gotRest) + iset{Escaped(k.key)} <= Keys(want, got)
  {
  }

  lemma {:induction false} FieldsNameEachOnce(path: string, want: seq<Field>, got: seq<Field>)
    requires SortedFields(want) && SortedFields(got)
    ensures Distinct(WalkFields(path, want, got)) && Differ(WalkFields(path, want, got))
    ensures StepsAmong(path, WalkFields(path, want, got), Keys(want, got))
    decreases FieldsWeight(want) + FieldsWeight(got), 1, |want| + |got|
  {
    if want != [] || got != [] {
      var k := LeastKey(want, got);
      LeastKeyIsApart(want, got);
      WalkNamesEachOnce(path + "/" + Escaped(k.key), k.want, k.got);
      FieldsNameEachOnce(path, k.wantRest, k.gotRest);
      var first, rest := Walk(path + "/" + Escaped(k.key), k.want, k.got), WalkFields(path, k.wantRest, k.gotRest);
      StepIsApart(k.key, k.wantRest, k.gotRest);
      EscapedHasNoSlash(k.key);
      Together(path, Escaped(k.key), first, rest, Keys(k.wantRest, k.gotRest));
      KeysOfBoth(want, got);
      MoreSteps(path, first + rest, Keys(k.wantRest, k.gotRest) + iset{Escaped(k.key)}, Keys(want, got));
    }
  }

  lemma {:induction false} ItemsNameEachOnce(path: string, want: seq<Json>, got: seq<Json>, from: nat)
    requires |want| == |got|
    requires forall i :: 0 <= i < |want| ==> IsSorted(want[i]) && IsSorted(got[i])
    ensures Distinct(WalkItems(path, want, got, from)) && Differ(WalkItems(path, want, got, from))
    ensures StepsAmong(path, WalkItems(path, want, got, from), Indexes(from))
    decreases ItemsWeight(want) + ItemsWeight(got), 1, |want|
  {
    if want != [] {
      var below := path + "/" + Decimal(from);
      WalkNamesEachOnce(below, Some(want[0]), Some(got[0]));
      ItemsNameEachOnce(path, want[1..], got[1..], from + 1);
      var first, rest := Walk(below, Some(want[0]), Some(got[0])), WalkItems(path, want[1..], got[1..], from + 1);
      DecimalHasNoSlash(from);
      IndexIsApart(from);
      Together(path, Decimal(from), first, rest, Indexes(from + 1));
      MoreSteps(path, first + rest, Indexes(from + 1) + iset{Decimal(from)}, Indexes(from));
    }
  }

  lemma IndexIsApart(from: nat)
    ensures Decimal(from) !in Indexes(from + 1)
    ensures Indexes(from + 1) + iset{Decimal(from)} <= Indexes(from)
  {
    if Decimal(from) in Indexes(from + 1) {
      var i: nat :| i >= from + 1 && Decimal(i) == Decimal(from);
      DecimalOnce(i, from);
    }
  }

  // A place is a pointer into both bodies.

  function ChildField(fields: seq<Field>, token: string): Option<Json> {
    if fields == [] then None
    else if Escaped(fields[0].key) == token then Some(fields[0].value)
    else ChildField(fields[1..], token)
  }

  function ChildItem(items: seq<Json>, token: string, from: nat): Option<Json> {
    if items == [] then None
    else if Decimal(from) == token then Some(items[0])
    else ChildItem(items[1..], token, from + 1)
  }

  function Child(v: Option<Json>, token: string): Option<Json> {
    if v.None? then None
    else
      match v.value
      case Object(fields) => ChildField(fields, token)
      case Array(items) => ChildItem(items, token, 0)
      case _ => None
  }

  /** The value a pointer points at. */
  function Lookup(v: Option<Json>, pointer: string): Option<Json>
    decreases |pointer|
  {
    if pointer == [] then v
    else if pointer[0] != '/' then None
    else
      var token := Until('/', pointer[1..]);
      Lookup(Child(v, token), if 1 + |token| <= |pointer| then pointer[1 + |token|..] else [])
  }

  /** The value a pointer below a path points at, one step in. */
  function LookupBelow(child: string -> Option<Json>, path: string, p: string): Option<Json>
  {
    var step := Step(path, p);
    Lookup(child(step), if |path| + 1 + |step| <= |p| then p[|path| + 1 + |step|..] else [])
  }

  ghost predicate Shows(want: Option<Json>, got: Option<Json>, path: string, place: Place) {
    && IsUnder(path, place.path)
    && Lookup(want, place.path[|path|..]) == place.want
    && Lookup(got, place.path[|path|..]) == place.got
  }

  ghost predicate ShowsBelow(want: string -> Option<Json>, got: string -> Option<Json>, path: string, place: Place) {
    && IsUnder(path, place.path) && |path| < |place.path|
    && LookupBelow(want, path, place.path) == place.want
    && LookupBelow(got, path, place.path) == place.got
  }

  lemma ShownOneStepIn(want: Option<Json>, got: Option<Json>, path: string, place: Place)
    requires ShowsBelow(t => Child(want, t), t => Child(got, t), path, place)
    ensures Shows(want, got, path, place)
  {
    var pointer := place.path[|path|..];
    assert pointer[1..] == place.path[|path| + 1..];
    var step := Step(path, place.path);
    if 1 + |step| <= |pointer| {
      assert pointer[1 + |step|..] == place.path[|path| + 1 + |step|..];
    }
  }

  lemma ShownAtItsStep(a: Option<Json>, b: Option<Json>, path: string, step: string, place: Place,
                       want: string -> Option<Json>, got: string -> Option<Json>)
    requires '/' !in step && Shows(a, b, path + "/" + step, place)
    requires want(step) == a && got(step) == b
    ensures ShowsBelow(want, got, path, place)
  {
    StepBelow(path, step, place.path);
  }

  /** At each place named, the pointer gives what the line says either side
      has. */
  lemma {:induction false} WalkShows(path: string, want: Option<Json>, got: Option<Json>, place: Place)
    requires SortedSide(want) && SortedSide(got) && place in Walk(path, want, got)
    ensures Shows(want, got, path, place)
    decreases SideWeight(want) + SideWeight(got), 0
  {
    if want.Some? && got.Some? && want.value.Object? && got.value.Object? {
      FieldsShow(path, want.value.fields, got.value.fields, place);
      ShownOneStepIn(want, got, path, place);
    } else if want.Some? && got.Some? && want.value.Array? && got.value.Array?
              && |want.value.items| == |got.value.items| {
      ItemsShow(path, want.value.items, got.value.items, 0, place);
      ShownOneStepIn(want, got, path, place);
    } else {
      assert place.path[|path|..] == [];
    }
  }

  lemma {:induction false} ChildFieldAbsent(fields: seq<Field>, key: string)
    requires forall f :: f in fields ==> f.key != key
    ensures ChildField(fields, Escaped(key)) == None
  {
    if fields != [] {
      if Escaped(fields[0].key) == Escaped(key) {
        EscapedOnce(fields[0].key, key);
      }
      ChildFieldAbsent(fields[1..], key);
    }
  }

  /** A place found past the first key is the same place in the whole object. */
  lemma ShownPastTheFirst(path: string, step: string, place: Place,
                          want: string -> Option<Json>, got: string -> Option<Json>,
                          wantAll: string -> Option<Json>, gotAll: string -> Option<Json>)
    requires ShowsBelow(want, got, path, place) && Step(path, place.path) != step
    requires forall t :: t != step ==> wantAll(t) == want(t) && gotAll(t) == got(t)
    ensures ShowsBelow(wantAll, gotAll, path, place)
  {
  }

  lemma LaterSteps(path: string, key: string, want: seq<Field>, got: seq<Field>, place: Place)
    requires SortedFields(want) && SortedFields(got) && place in WalkFields(path, want, got)
    requires IsApart(key, want) && IsApart(key, got)
    ensures Step(path, place.path) != Escaped(key)
  {
    FieldsNameEachOnce(path, want, got);
    StepIsApart(key, want, got);
  }

  lemma LeastKeyChildren(want: seq<Field>, got: seq<Field>)
    requires SortedFields(want) && SortedFields(got) && (want != [] || got != [])
    ensures var k := LeastKey(want, got);
            && ChildField(want, Escaped(k.key)) == k.want
            && ChildField(got, Escaped(k.key)) == k.got
            && (forall t :: t != Escaped(k.key) ==> ChildField(want, t) == ChildField(k.wantRest, t))
            && (forall t :: t != Escaped(k.key) ==> ChildField(got, t) == ChildField(k.gotRest, t))
  {
    TextsAreTotal();
    LeastKeyIsApart(want, got);
    var k := LeastKey(want, got);
    if k.want.None? {
      ChildFieldAbsent(want, k.key);
    }
    if k.got.None? {
      ChildFieldAbsent(got, k.key);
    }
  }

  lemma FieldsShowFirst(path: string, want: seq<Field>, got: seq<Field>, place: Place)
    requires SortedFields(want) && SortedFields(got) && (want != [] || got != [])
    requires var k := LeastKey(want, got); Shows(k.want, k.got, path + "/" + Escaped(k.key), place)
    ensures ShowsBelow(t => ChildField(want, t), t => ChildField(got, t), path, place)
  {
    var k := LeastKey(want, got);
    LeastKeyChildren(want, got);
    EscapedHasNoSlash(k.key);
    ShownAtItsStep(k.want, k.got, path, Escaped(k.key), place, t => ChildField(want, t), t => ChildField(got, t));
  }

  lemma FieldsShowRest(path: string, want: seq<Field>, got: seq<Field>, place: Place)
    requires SortedFields(want) && SortedFields(got) && (want != [] || got != [])
    requires var k := LeastKey(want, got);
             && ShowsBelow(t => ChildField(k.wantRest, t), t => ChildField(k.gotRest, t), path, place)
             && Step(path, place.path) != Escaped(k.key)
    ensures ShowsBelow(t => ChildField(want, t), t => ChildField(got, t), path, place)
  {
    var k := LeastKey(want, got);
    LeastKeyChildren(want, got);
    ShownPastTheFirst(path, Escaped(k.key), place, t => ChildField(k.wantRest, t), t => ChildField(k.gotRest, t),
                      t => ChildField(want, t), t => ChildField(got, t));
  }

  lemma {:induction false} FieldsShow(path: string, want: seq<Field>, got: seq<Field>, place: Place)
    requires SortedFields(want) && SortedFields(got) && place in WalkFields(path, want, got)
    ensures ShowsBelow(t => ChildField(want, t), t => ChildField(got, t), path, place)
    decreases FieldsWeight(want) + FieldsWeight(got), 1, |want| + |got|
  {
    var k := LeastKey(want, got);
    LeastKeyIsApart(want, got);
    if place in Walk(path + "/" + Escaped(k.key), k.want, k.got) {
      WalkShows(path + "/" + Escaped(k.key), k.want, k.got, place);
      FieldsShowFirst(path, want, got, place);
    } else {
      FieldsShow(path, k.wantRest, k.gotRest, place);
      LaterSteps(path, k.key, k.wantRest, k.gotRest, place);
      FieldsShowRest(path, want, got, place);
    }
  }

  lemma LaterIndexes(path: string, want: seq<Json>, got: seq<Json>, from: nat, place: Place)
    requires |want| == |got| && place in WalkItems(path, want, got, from + 1)
    requires forall j :: 0 <= j < |want| ==> IsSorted(want[j]) && IsSorted(got[j])
    ensures Step(path, place.path) != Decimal(from)
  {
    ItemsNameEachOnce(path, want, got, from + 1);
    IndexIsApart(from);
  }

  lemma {:induction false} ItemsShow(path: string, want: seq<Json>, got: seq<Json>, from: nat, place: Place)
    requires |want| == |got| && place in WalkItems(path, want, got, from)
    requires forall j :: 0 <= j < |want| ==> IsSorted(want[j]) && IsSorted(got[j])
    ensures ShowsBelow(t => ChildItem(want, t, from), t => ChildItem(got, t, from), path, place)
    decreases ItemsWeight(want) + ItemsWeight(got), 1, |want|
  {
    if place in Walk(path + "/" + Decimal(from), Some(want[0]), Some(got[0])) {
      WalkShows(path + "/" + Decimal(from), Some(want[0]), Some(got[0]), place);
      DecimalHasNoSlash(from);
      ShownAtItsStep(Some(want[0]), Some(got[0]), path, Decimal(from), place,
                     t => ChildItem(want, t, from), t => ChildItem(got, t, from));
    } else {
      ItemsShow(path, want[1..], got[1..], from + 1, place);
      LaterIndexes(path, want[1..], got[1..], from, place);
      ShownPastTheFirst(path, Decimal(from), place,
                        t => ChildItem(want[1..], t, from + 1), t => ChildItem(got[1..], t, from + 1),
                        t => ChildItem(want, t, from), t => ChildItem(got, t, from));
    }
  }

  // Pointers, and which places are named.

  /** A token of a pointer as section 4 of RFC 6901 reads it. */
  function Unescaped(token: string): string
    decreases |token|
  {
    if token == [] then []
    else if |token| >= 2 && token[0] == '~' && token[1] == '1' then "/" + Unescaped(token[2..])
    else if |token| >= 2 && token[0] == '~' && token[1] == '0' then "~" + Unescaped(token[2..])
    else [token[0]] + Unescaped(token[1..])
  }

  lemma {:induction false} EscapedReadsBack(key: string)
    ensures Unescaped(Escaped(key)) == key
  {
    if key != [] {
      EscapedReadsBack(key[1..]);
      var token, rest := Escaped(key), Escaped(key[1..]);
      if key[0] == '~' || key[0] == '/' {
        assert token[2..] == rest;
      } else {
        assert token[1..] == rest;
      }
    }
  }

  /** Two values that are walked into and not named. */
  predicate IsWalkedInto(want: Option<Json>, got: Option<Json>) {
    && want.Some? && got.Some?
    && (|| (want.value.Object? && got.value.Object?)
        || (want.value.Array? && got.value.Array? && |want.value.items| == |got.value.items|))
  }

  ghost predicate AreInnermost(places: seq<Place>) {
    forall i :: 0 <= i < |places| ==> !IsWalkedInto(places[i].want, places[i].got)
  }

  lemma {:induction false} WalkNamesTheInnermost(path: string, want: Option<Json>, got: Option<Json>)
    ensures AreInnermost(Walk(path, want, got))
    ensures !IsWalkedInto(want, got) && want != got ==> Walk(path, want, got) == [Place(path, want, got)]
    decreases SideWeight(want) + SideWeight(got), 0
  {
    if IsWalkedInto(want, got) {
      if want.value.Object? {
        FieldsNameTheInnermost(path, want.value.fields, got.value.fields);
      } else {
        ItemsNameTheInnermost(path, want.value.items, got.value.items, 0);
      }
    }
  }

  lemma {:induction false} FieldsNameTheInnermost(path: string, want: seq<Field>, got: seq<Field>)
    ensures AreInnermost(WalkFields(path, want, got))
    decreases FieldsWeight(want) + FieldsWeight(got), |want| + |got|
  {
    if want != [] || got != [] {
      var k := LeastKey(want, got);
      WalkNamesTheInnermost(path + "/" + Escaped(k.key), k.want, k.got);
      FieldsNameTheInnermost(path, k.wantRest, k.gotRest);
    }
  }

  lemma {:induction false} ItemsNameTheInnermost(path: string, want: seq<Json>, got: seq<Json>, from: nat)
    requires |want| == |got|
    ensures AreInnermost(WalkItems(path, want, got, from))
    decreases ItemsWeight(want) + ItemsWeight(got), |want|
  {
    if want != [] {
      WalkNamesTheInnermost(path + "/" + Decimal(from), Some(want[0]), Some(got[0]));
      ItemsNameTheInnermost(path, want[1..], got[1..], from + 1);
    }
  }

  // The order they are named in.

  /** The places go step by step below a path, none after one that comes later. */
  ghost predicate Ascend(path: string, places: seq<Place>, before: (string, string) -> bool) {
    forall i, j :: 0 <= i < j < |places| ==>
      var a, b := Step(path, places[i].path), Step(path, places[j].path); a == b || before(a, b)
  }

  lemma AscendTogether(path: string, step: string, first: seq<Place>, rest: seq<Place>, steps: iset<string>,
                       before: (string, string) -> bool)
    requires '/' !in step && AllUnder(path + "/" + step, first)
    requires StepsAmong(path, rest, steps) && Ascend(path, rest, before)
    requires forall t :: t in steps ==> before(step, t)
    ensures Ascend(path, first + rest, before)
  {
    forall i | 0 <= i < |first|
      ensures Step(path, first[i].path) == step
    {
      StepBelow(path, step, first[i].path);
    }
  }

  ghost function KeyBefore(): (string, string) -> bool {
    (a: string, b: string) => CompareTexts(Unescaped(a), Unescaped(b)) == Less
  }

  lemma LeastKeyIsLeast(want: seq<Field>, got: seq<Field>)
    requires SortedFields(want) && SortedFields(got) && (want != [] || got != [])
    ensures var k := LeastKey(want, got);
            forall f :: f in k.wantRest || f in k.gotRest ==> CompareTexts(k.key, f.key) == Less
  {
    TextsAreTotal();
  }

  lemma LeastStepIsBefore(want: seq<Field>, got: seq<Field>)
    requires SortedFields(want) && SortedFields(got) && (want != [] || got != [])
    ensures var k := LeastKey(want, got);
            forall t :: t in Keys(k.wantRest, k.gotRest) ==> KeyBefore()(Escaped(k.key), t)
  {
    var k := LeastKey(want, got);
    LeastKeyIsLeast(want, got);
    EscapedReadsBack(k.key);
    forall t | t in Keys(k.wantRest, k.gotRest)
      ensures KeyBefore()(Escaped(k.key), t)
    {
      var f :| (f in k.wantRest || f in k.gotRest) && Escaped(f.key) == t;
      EscapedReadsBack(f.key);
    }
  }

  /** Of two objects the fields are named in the order of their keys. */
  lemma {:induction false} FieldsAreInOrder(path: string, want: seq<Field>, got: seq<Field>)
    requires SortedFields(want) && SortedFields(got)
    ensures Ascend(path, WalkFields(path, want, got), KeyBefore())
    decreases |want| + |got|
  {
    if want != [] || got != [] {
      var k := LeastKey(want, got);
      LeastKeyIsApart(want, got);
      LeastStepIsBefore(want, got);
      var below := path + "/" + Escaped(k.key);
      WalkNamesEachOnce(below, k.want, k.got);
      FieldsNameEachOnce(path, k.wantRest, k.gotRest);
      FieldsAreInOrder(path, k.wantRest, k.gotRest);
      EscapedHasNoSlash(k.key);
      AscendTogether(path, Escaped(k.key), Walk(below, k.want, k.got), WalkFields(path, k.wantRest, k.gotRest),
                     Keys(k.wantRest, k.gotRest), KeyBefore());
    }
  }

  ghost function IndexBefore(): (string, string) -> bool {
    (a: string, b: string) => exists m: nat, n: nat :: m < n && a == Decimal(m) && b == Decimal(n)
  }

  /** Of two arrays the items in the order of their numbers. */
  lemma {:induction false} ItemsAreInOrder(path: string, want: seq<Json>, got: seq<Json>, from: nat)
    requires |want| == |got|
    requires forall i :: 0 <= i < |want| ==> IsSorted(want[i]) && IsSorted(got[i])
    ensures Ascend(path, WalkItems(path, want, got, from), IndexBefore())
    decreases |want|
  {
    if want != [] {
      var below := path + "/" + Decimal(from);
      WalkNamesEachOnce(below, Some(want[0]), Some(got[0]));
      ItemsNameEachOnce(path, want[1..], got[1..], from + 1);
      ItemsAreInOrder(path, want[1..], got[1..], from + 1);
      DecimalHasNoSlash(from);
      AscendTogether(path, Decimal(from), Walk(below, Some(want[0]), Some(got[0])),
                     WalkItems(path, want[1..], got[1..], from + 1), Indexes(from + 1), IndexBefore());
    }
  }
}
