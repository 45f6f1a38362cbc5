/** Putting a name on the wire, and reading back what was put there. */
module DnsWriting {
  import opened Wrappers
  import opened DnsNames
  import opened Walks

  // Names as text.

  /** The text cut at every dot, which always has at least one piece. */
  function Split(text: seq<byte>): (labels: seq<Label>)
    ensures labels != []
  {
    if text == [] then [[]]
    else if text[0] == DOT then [[]] + Split(text[1..])
    else var rest := Split(text[1..]); [[text[0]] + rest[0]] + rest[1..]
  }

  function Joined(labels: seq<Label>): seq<byte> {
    if labels == [] then []
    else if |labels| == 1 then labels[0]
    else labels[0] + [DOT] + Joined(labels[1..])
  }

  lemma {:induction false} SplitThenJoin(text: seq<byte>)
    ensures Joined(Split(text)) == text
  {
    if text != [] {
      var rest := Split(text[1..]);
      SplitThenJoin(text[1..]);
      if text[0] == DOT {
        assert Split(text)[1..] == rest;
      } else if |rest| > 1 {
        assert Split(text)[1..] == rest[1..];
      }
    }
  }

  function WithoutDot(name: seq<byte>): seq<byte> {
    if name != [] && name[|name| - 1] == DOT then name[..|name| - 1] else name
  }

  predicate IsLabel(l: Label) {
    1 <= |l| <= MAX_LABEL
  }

  predicate AreLabels(labels: seq<Label>) {
    forall i :: 0 <= i < |labels| ==> IsLabel(labels[i])
  }

  /** The names that may be asked about, a dot at the end allowed. */
  predicate Askable(name: seq<byte>) {
    var text := WithoutDot(name);
    && text != []
    && |text| <= MAX_NAME
    && AreLabels(Split(text))
  }

  // Which names those are.

  ghost predicate HaveNoDots(labels: seq<Label>) {
    forall i :: 0 <= i < |labels| ==> DOT !in labels[i]
  }

  /** The labels of a name, which may end in a dot. */
  ghost predicate AreNamed(labels: seq<Label>, name: seq<byte>) {
    && labels != [] && HaveNoDots(labels)
    && (forall i :: 0 <= i < |labels| ==> 1 <= |labels[i]| <= 63)
    && |Joined(labels)| <= 253
    && (name == Joined(labels) || name == Joined(labels) + [DOT])
  }

  lemma {:induction false} SplitHasNoDots(text: seq<byte>)
    ensures HaveNoDots(Split(text))
  {
    if text != [] {
      SplitHasNoDots(text[1..]);
    }
  }

  lemma {:induction false} SplitFirst(l: Label, rest: seq<byte>)
    requires DOT !in l
    ensures Split(l) == [l]
    ensures Split(l + [DOT] + rest) == [l] + Split(rest)
  {
    var whole := l + [DOT] + rest;
    if l == [] {
      assert whole[1..] == rest;
    } else {
      assert whole[1..] == l[1..] + [DOT] + rest;
      SplitFirst(l[1..], rest);
      assert [l[0]] + l[1..] == l;
    }
  }

  lemma {:induction false} JoinThenSplit(labels: seq<Label>)
    requires labels != [] && HaveNoDots(labels)
    ensures Split(Joined(labels)) == labels
  {
    if |labels| == 1 {
      SplitFirst(labels[0], []);
    } else {
      JoinThenSplit(labels[1..]);
      SplitFirst(labels[0], Joined(labels[1..]));
    }
  }

  lemma {:induction false} JoinedEnds(labels: seq<Label>)
    requires labels != [] && HaveNoDots(labels) && forall i :: 0 <= i < |labels| ==> labels[i] != []
    ensures Joined(labels) != [] && Joined(labels)[|Joined(labels)| - 1] != DOT
  {
    if |labels| == 1 {
      assert labels[0][|labels[0]| - 1] in labels[0];
    } else {
      JoinedEnds(labels[1..]);
    }
  }

  /** The labels say what is written for a name. */
  lemma NamedLabels(labels: seq<Label>, name: seq<byte>)
    requires AreNamed(labels, name)
    ensures WithoutDot(name) == Joined(labels) && Split(WithoutDot(name)) == labels && Askable(name)
  {
    JoinedEnds(labels);
    JoinThenSplit(labels);
  }

  /** A name may be asked about if and only if it is such labels with dots between
      them: one to 63 bytes each and no dot in any, 253 in all, and a dot after them
      or none. */
  lemma AskableIff(name: seq<byte>)
    ensures Askable(name) <==> exists labels :: AreNamed(labels, name)
  {
    if Askable(name) {
      var text := WithoutDot(name);
      SplitThenJoin(text);
      SplitHasNoDots(text);
      assert name == text || name == text + [DOT];
      assert AreNamed(Split(text), name);
    }
    forall labels | AreNamed(labels, name)
      ensures Askable(name)
    {
      NamedLabels(labels, name);
    }
  }

  // Names as bytes.

  function Lengthed(labels: seq<Label>): seq<byte>
    requires AreLabels(labels)
  {
    if labels == [] then [] else [|labels[0]| as byte] + labels[0] + Lengthed(labels[1..])
  }

  function Wire(labels: seq<Label>): seq<byte>
    requires AreLabels(labels)
  {
    Lengthed(labels) + [0]
  }

  lemma {:induction false} LengthedSnoc(labels: seq<Label>, l: Label)
    requires AreLabels(labels) && IsLabel(l)
    ensures Lengthed(labels + [l]) == Lengthed(labels) + [|l| as byte] + l
  {
    if labels == [] {
      assert labels + [l] == [l];
    } else {
      assert (labels + [l])[1..] == labels[1..] + [l];
      LengthedSnoc(labels[1..], l);
    }
  }

  /** A name on the wire is its text with a length for every dot, one more
      length in front and a zero at the end, so an askable name fits the 255
      octets section 2.3.4 allows. */
  lemma {:induction false} WireLength(labels: seq<Label>)
    requires labels != [] && AreLabels(labels)
    ensures |Wire(labels)| == |Joined(labels)| + 2
  {
    if |labels| > 1 {
      WireLength(labels[1..]);
    } else {
      assert labels[1..] == [];
    }
  }

  /** Pushes the name onto what is already there. A refused name may have left
      labels behind, which is why a refused buffer is thrown away. */
  method Written(out: seq<byte>, name: seq<byte>) returns (r: Result<seq<byte>, seq<byte>>)
    ensures r.Ok? <==> Askable(name)
    ensures r.Ok? ==> r.value == out + Wire(Split(WithoutDot(name)))
    ensures r.Ok? ==> |r.value| <= |out| + 255
    ensures r.Err? ==> out <= r.error
  {
    var text := WithoutDot(name);
    if text == [] || |text| > MAX_NAME {
      return Err(out);
    }
    var labels := Split(text);
    var pushed := out;
    var i := 0;
    while i < |labels|
      invariant 0 <= i <= |labels|
      invariant AreLabels(labels[..i])
      invariant pushed == out + Lengthed(labels[..i])
    {
      if |labels[i]| == 0 || |labels[i]| > MAX_LABEL {
        return Err(pushed);
      }
      assert labels[..i + 1] == labels[..i] + [labels[i]];
      LengthedSnoc(labels[..i], labels[i]);
      pushed := pushed + [|labels[i]| as byte] + labels[i];
      i := i + 1;
    }
    assert labels[..i] == labels;
    WireLength(labels);
    SplitThenJoin(text);
    r := Ok(pushed + [0]);
  }

  // Reading back.

  /** The layout with no pointers, and the one that ends in a pointer. */
  function Plainly(labels: seq<Label>, tail: Spelling): Spelling {
    if labels == [] then tail else Labelled(labels[0], Plainly(labels[1..], tail))
  }

  lemma FrontAt(p: seq<byte>, at: nat, size: byte, text: seq<byte>, rest: seq<byte>)
    requires At(p, at, [size] + text + rest)
    ensures var next := at + 1 + |text|;
            next <= |p| && p[at] == size && p[at + 1..next] == text && At(p, next, rest)
  {
    AtSplits(p, at, [size] + text, rest);
    AtSplits(p, at, [size], text);
    assert p[at] == p[at..at + 1][0];
  }

  lemma FirstLabelAt(p: seq<byte>, at: nat, labels: seq<Label>)
    requires labels != [] && AreLabels(labels) && At(p, at, Lengthed(labels))
    ensures var next := at + 1 + |labels[0]|;
            && next <= |p|
            && p[at] == |labels[0]|
            && p[at + 1..next] == labels[0]
            && At(p, next, Lengthed(labels[1..]))
            && next + |Lengthed(labels[1..])| == at + |Lengthed(labels)|
  {
    FrontAt(p, at, |labels[0]| as byte, labels[0], Lengthed(labels[1..]));
  }

  /** Labels written at an offset spell themselves followed by whatever the
      bytes after them spell. */
  lemma {:induction false} LabelsSpell(p: seq<byte>, at: nat, labels: seq<Label>, tail: Spelling)
    requires AreLabels(labels)
    requires At(p, at, Lengthed(labels))
    requires Spelled(p, at + |Lengthed(labels)|, tail)
    ensures Spelled(p, at, Plainly(labels, tail))
    decreases |labels|
  {
    if labels != [] {
      FirstLabelAt(p, at, labels);
      var next := at + 1 + |labels[0]|;
      LabelsSpell(p, next, labels[1..], tail);
      assert Spelled(p, at, Labelled(labels[0], Plainly(labels[1..], tail)));
    }
  }

  lemma {:induction false} LabelsMean(labels: seq<Label>, tail: Spelling)
    requires AreLabels(labels)
    ensures LabelsOf(Plainly(labels, tail)) == labels + LabelsOf(tail)
    ensures Extent(Plainly(labels, tail)) == |Lengthed(labels)| + Extent(tail)
    decreases |labels|
  {
    if labels != [] {
      LabelsMean(labels[1..], tail);
      assert labels == [labels[0]] + labels[1..];
    }
  }

  lemma {:induction false} LabelsDescend(labels: seq<Label>, tail: Spelling, bound: nat)
    requires Descending(tail, bound)
    ensures Descending(Plainly(labels, tail), bound)
  {
    if labels != [] {
      LabelsDescend(labels[1..], tail, bound);
    }
  }

  /** What the reader makes of one name, given a layout it would accept. */
  lemma ReadsAs(p: seq<byte>, at: nat, s: Spelling)
    requires Spelled(p, at, s) && Descending(s, at)
    ensures ReadAt(p, at, at) == Some(s)
    ensures forall t :: Spelled(p, at, t) && Descending(t, at) ==> t == s
  {
    ReadIsComplete(p, at, at, s);
    forall t | Spelled(p, at, t) && Descending(t, at)
      ensures t == s
    {
      ReadIsComplete(p, at, at, t);
    }
  }

  /** Labels written in full anywhere in a packet are read back as
      themselves, with the cursor past the zero. */
  lemma WireReadsBack(before: seq<byte>, labels: seq<Label>, after: seq<byte>)
    requires AreLabels(labels)
    ensures
      var r := ReadAt(before + Wire(labels) + after, |before|, |before|);
      r.Some? && LabelsOf(r.value) == labels && Extent(r.value) == |Wire(labels)|
  {
    var p := before + Wire(labels) + after;
    WireSpells(p, |before|, labels);
    LabelsDescend(labels, End, |before|);
    ReadsAs(p, |before|, Plainly(labels, End));
  }

  lemma WireSpells(p: seq<byte>, at: nat, labels: seq<Label>)
    requires AreLabels(labels)
    requires At(p, at, Wire(labels))
    ensures Spelled(p, at, Plainly(labels, End))
    ensures LabelsOf(Plainly(labels, End)) == labels
    ensures Extent(Plainly(labels, End)) == |Wire(labels)|
  {
    var n := |Lengthed(labels)|;
    AtSplits(p, at, Lengthed(labels), [0]);
    assert p[at + n] == p[at + n..at + n + 1][0];
    LabelsSpell(p, at, labels, End);
    LabelsMean(labels, End);
  }

  /** Every name that may be asked about, written anywhere in any packet, is
      read back as the labels it was made of with the cursor just past it, and
      joining those labels gives the text that was asked. */
  lemma WrittenReadsBack(before: seq<byte>, name: seq<byte>, after: seq<byte>)
    requires Askable(name)
    ensures
      var labels := Split(WithoutDot(name));
      var r := ReadAt(before + Wire(labels) + after, |before|, |before|);
      && r.Some?
      && LabelsOf(r.value) == labels
      && Joined(LabelsOf(r.value)) == WithoutDot(name)
      && Extent(r.value) == |Wire(labels)|
  {
    WireReadsBack(before, Split(WithoutDot(name)), after);
    SplitThenJoin(WithoutDot(name));
  }

  /** The two bytes of a pointer, which reach the first 16384 offsets. */
  function PointerTo(to: nat): seq<byte>
    requires to < 0x4000
  {
    [(0xc0 + to / 256) as byte, (to % 256) as byte]
  }

  /** A name that ends in a pointer to an earlier name is the labels before
      the pointer followed by that name, and the cursor is left two bytes past
      where the pointer begins. */
  lemma CompressedReadsBack(p: seq<byte>, at: nat, front: seq<Label>, to: nat, earlier: Spelling)
    requires AreLabels(front)
    requires to < at && to < 0x4000
    requires Spelled(p, to, earlier) && Descending(earlier, to)
    requires At(p, at, Lengthed(front) + PointerTo(to))
    ensures ReadAt(p, at, at).Some?
    ensures LabelsOf(ReadAt(p, at, at).value) == front + LabelsOf(earlier)
    ensures Extent(ReadAt(p, at, at).value) == |Lengthed(front)| + 2
  {
    var n := |Lengthed(front)|;
    AtSplits(p, at, Lengthed(front), PointerTo(to));
    assert [p[at + n], p[at + n + 1]] == p[at + n..at + n + 2];
    LabelsSpell(p, at, front, Pointing(to, earlier));
    LabelsMean(front, Pointing(to, earlier));
    LabelsDescend(front, Pointing(to, earlier), at);
    ReadsAs(p, at, Plainly(front, Pointing(to, earlier)));
  }

  lemma StaysAt(before: seq<byte>, to: nat, part: seq<byte>, rest: seq<byte>)
    requires At(before, to, part)
    ensures At(before + rest, to, part)
  {
    assert (before + rest)[to..to + |part|] == before[to..to + |part|];
  }

  lemma BehindAt(before: seq<byte>, part: seq<byte>, after: seq<byte>)
    ensures At(before + (part + after), |before|, part)
  {
  }

  lemma ShortensTo(before: seq<byte>, front: seq<Label>, back: seq<Label>, to: nat, after: seq<byte>)
    requires AreLabels(front) && AreLabels(back)
    requires to < 0x4000 && At(before, to, Wire(back))
    ensures
      var compressed := before + Lengthed(front) + PointerTo(to) + after;
      var at := |before|;
      ReadAt(compressed, at, at).Some? && LabelsOf(ReadAt(compressed, at, at).value) == front + back
  {
    var part := Lengthed(front) + PointerTo(to);
    var compressed := before + Lengthed(front) + PointerTo(to) + after;
    assert compressed == before + (part + after);
    StaysAt(before, to, Wire(back), part + after);
    BehindAt(before, part, after);
    WireSpells(compressed, to, back);
    LabelsDescend(back, End, to);
    CompressedReadsBack(compressed, |before|, front, to, Plainly(back, End));
  }

  /** Replacing the end of a name by a pointer to where that end was already
      written leaves the name that is read unchanged. */
  lemma CompressionKeepsTheName(before: seq<byte>, front: seq<Label>, back: seq<Label>, to: nat,
                                after: seq<byte>, after': seq<byte>)
    requires AreLabels(front) && AreLabels(back)
    requires to < 0x4000 && At(before, to, Wire(back))
    ensures
      var whole := before + Wire(front + back) + after;
      var compressed := before + Lengthed(front) + PointerTo(to) + after';
      var at := |before|;
      && ReadAt(whole, at, at).Some? && ReadAt(compressed, at, at).Some?
      && LabelsOf(ReadAt(whole, at, at).value) == LabelsOf(ReadAt(compressed, at, at).value) == front + back
  {
    WireReadsBack(before, front + back, after);
    ShortensTo(before, front, back, to, after');
  }
}
