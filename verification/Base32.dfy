/** Base32 through a 32 bit accumulator, both ways, against the numbers the
    two strings of digits spell.

    Section 6 of RFC 4648 cuts one string of bits into fives or into eights.
    Read big-endian, that string is a number, so what an encoder or a decoder
    has to do is said here about numbers, and the accumulators are proved to
    do it. */
module Base32 {
  import opened Wrappers
  import opened Arithmetic
  import opened Decimals
  import opened Texts

  type five = n: int | 0 <= n < 32

  /** The accumulator is a word of 32 bits, and what is shifted off its top is
      gone. */
  const WORD: nat := 0x1_0000_0000

  /** Where the low bits are clear, or is plus, and the masks are remainders. */
  lemma WordsAreNumbers(b: bv32, s: bv32, y: bv32)
    requires s < 32 && y < 256
    ensures (b << 5) | s == (b << 5) + s
    ensures (b << 8) | y == (b << 8) + y
    ensures b & 0x1f == b % 32
  {
  }

  lemma SpelledSplits(base: nat, digits: seq<nat>)
    requires digits != [] && digits[|digits| - 1] < base
    ensures Spelled(base, digits) / base == Spelled(base, digits[..|digits| - 1])
    ensures Spelled(base, digits) % base == digits[|digits| - 1]
  {
    Quotient(Spelled(base, digits), base, Spelled(base, digits[..|digits| - 1]));
  }

  /** As many digits spelling the same number are the same digits. */
  lemma {:induction false} SpelledOnce(base: nat, a: seq<nat>, b: seq<nat>)
    requires |a| == |b| && Spelled(base, a) == Spelled(base, b)
    requires forall i :: 0 <= i < |a| ==> a[i] < base && b[i] < base
    ensures a == b
  {
    if a != [] {
      var last := |a| - 1;
      SpelledSplits(base, a);
      SpelledSplits(base, b);
      SpelledOnce(base, a[..last], b[..last]);
      assert a == a[..last] + [a[last]] && b == b[..last] + [b[last]];
    }
  }

  function Two(k: nat): (p: nat)
    ensures p > 0
  {
    if k == 0 then 1 else 2 * Two(k - 1)
  }

  lemma {:induction false} TwoSum(j: nat, k: nat)
    ensures Two(j + k) == Two(j) * Two(k)
  {
    if j > 0 {
      TwoSum(j - 1, k);
    }
  }

  lemma SmallTwos()
    ensures Two(5) == 32 && Two(8) == 256 && Two(32) == WORD
  {
    assert Two(4) == 16;
    TwoSum(4, 4);
    TwoSum(8, 8);
    TwoSum(16, 16);
  }

  /** What the bits of a whole number of digits decode to: every eight of
      them, and none of the rest. */
  ghost predicate IsDecoding(symbols: seq<five>, bytes: seq<byte>) {
    && |bytes| == 5 * |symbols| / 8
    && Spelled(256, bytes) == Spelled(32, symbols) / Two(5 * |symbols| % 8)
  }

  /** What bytes encode to: all their bits, and zeros up to a whole digit. */
  ghost predicate IsEncoding(bytes: seq<byte>, symbols: seq<five>) {
    && |symbols| == (8 * |bytes| + 4) / 5
    && Spelled(32, symbols) == Spelled(256, bytes) * Two(5 * |symbols| - 8 * |bytes|)
  }

  lemma DecodingIsUnique(symbols: seq<five>, a: seq<byte>, b: seq<byte>)
    requires IsDecoding(symbols, a) && IsDecoding(symbols, b)
    ensures a == b
  {
    SpelledOnce(256, a, b);
  }

  lemma PaddingIsWhatIsLeft(n: nat, m: nat)
    requires m == (8 * n + 4) / 5
    ensures 0 <= 5 * m - 8 * n < 5
    ensures 5 * m % 8 == 5 * m - 8 * n && 5 * m / 8 == n
  {
  }

  lemma MultipliedBack(x: nat, p: nat)
    requires 0 < p
    ensures x * p / p == x
  {
    Quotient(x * p, p, x);
  }

  /** Decoding undoes encoding, whatever the length left over. */
  lemma EncodingDecodes(bytes: seq<byte>, symbols: seq<five>)
    requires IsEncoding(bytes, symbols)
    ensures IsDecoding(symbols, bytes)
  {
    PaddingIsWhatIsLeft(|bytes|, |symbols|);
    MultipliedBack(Spelled(256, bytes), Two(5 * |symbols| % 8));
  }

  // One digit through the accumulator.

  /** Pushing a digit below the bits that count. */
  lemma Pushed(v: nat, held: nat, wide: nat, d: nat)
    requires d < Two(wide)
    ensures v / Two(held) == (v * Two(wide) + d) / Two(held + wide)
  {
    TwoSum(wide, held);
    assert Two(wide) * v == v * Two(wide);
    Quotient(v * Two(wide) + d, Two(wide), v);
    DividedTwice(v * Two(wide) + d, Two(wide), Two(held));
  }

  /** Taking a digit off the top of the bits that count. */
  lemma Popped(v: nat, held: nat, wide: nat)
    ensures v / Two(held) == v / Two(held + wide) * Two(wide) + (v / Two(held)) % Two(wide)
  {
    TwoSum(held, wide);
    DividedTwice(v, Two(held), Two(wide));
  }

  lemma Remainder(x: nat, m: nat, k: nat, r: nat)
    requires 0 < m && x == m * k + r
    ensures x % m == r % m
  {
    assert r == m * (r / m) + r % m;
    assert m * k + m * (r / m) == m * (k + r / m);
    Quotient(x, m, k + r / m);
  }

  lemma DividedRemainder(v: nat, word: nat, p: nat, n: nat)
    requires 0 < p && 0 < word == p * n
    ensures v / p == n * (v / word) + (v % word) / p
  {
    var q, r := v / word, v % word;
    assert v == word * q + r;
    assert (p * n) * q == p * (n * q);
    assert r == p * (r / p) + r % p;
    assert p * (n * q) + p * (r / p) == p * (n * q + r / p);
    Quotient(v, p, n * q + r / p);
  }

  lemma RemainderOfMultiple(x: nat, n: nat, m: nat, k: nat, q: nat, r: nat)
    requires 0 < m && n == m * k && x == n * q + r
    ensures x % m == r % m
  {
    assert (m * k) * q == m * (k * q);
    Remainder(x, m, k * q, r);
  }

  lemma WrappedBy(v: nat, word: nat, p: nat, n: nat, m: nat, k: nat)
    requires 0 < p && 0 < m && 0 < word == p * n && n == m * k
    ensures (v % word) / p % m == v / p % m
  {
    DividedRemainder(v, word, p, n);
    RemainderOfMultiple(v / p, n, m, k, v / word, (v % word) / p);
  }

  lemma SplitWord(held: nat, wide: nat)
    requires held + wide <= 32
    ensures WORD == Two(held) * Two(32 - held)
    ensures Two(32 - held) == Two(wide) * Two(32 - held - wide)
  {
    TwoSum(wide, 32 - held - wide);
    TwoSum(held, 32 - held);
    SmallTwos();
  }

  /** A word is enough: the bits read are the bits of the whole number. */
  lemma Wrapped(v: nat, held: nat, wide: nat)
    requires held + wide <= 32
    ensures (v % WORD) / Two(held) % Two(wide) == v / Two(held) % Two(wide)
  {
    SplitWord(held, wide);
    WrappedBy(v, WORD, Two(held), Two(32 - held), Two(wide), Two(32 - held - wide));
  }

  /** The word follows the number. */
  lemma Followed(v: nat, bits: nat, base: nat, d: nat)
    requires bits == v % WORD && 0 < base && WORD % base == 0 && d < base
    ensures (bits * base) % WORD + d == (v * base + d) % WORD
  {
    var q := v / WORD;
    var k := WORD / base;
    assert v * base == WORD * (q * base) + bits * base;
    Remainder(v * base, WORD, q * base, bits * base);
    var low := bits * base % WORD;
    var m := bits * base / WORD;
    assert WORD == base * k;
    assert low == base * (bits - k * m) by {
      assert bits * base == WORD * m + low;
      assert base * (bits - k * m) == base * bits - base * (k * m);
      assert base * (k * m) == (base * k) * m;
    }
    assert low + d < WORD by {
      Multiplied(base, k, bits - k * m);
      Multiplied(base, bits - k * m + 1, k);
    }
    assert v * base + d == WORD * (v * base / WORD) + (low + d);
    Quotient(v * base + d, WORD, v * base / WORD);
  }

  // The alphabet: the capitals, then two to seven.

  function Symbol(n: five): (c: char)
    ensures Position(c) == Some(n)
  {
    if n < 26 then 'A' + n as char else '2' + (n - 26) as char
  }

  /** Where a character is in the alphabet. */
  function Position(c: char): (r: Option<five>) {
    if 'A' <= c <= 'Z' then Some(c as int - 'A' as int)
    else if '2' <= c <= '7' then Some(c as int - '2' as int + 26)
    else None
  }

  /** Table 3 of RFC 4648. */
  lemma TheAlphabet(n: five)
    ensures Symbol(n) == "ABCDEFGHIJKLMNOPQRSTUVWXYZ234567"[n]
  {
  }

  function Symbols(ns: seq<five>): (text: string)
    ensures |text| == |ns|
  {
    seq(|ns|, i requires 0 <= i < |ns| => Symbol(ns[i]))
  }

  // The accumulator: the word holds the low bits of the whole number, and what
  // has been written out is that number without the bits still held.

  ghost predicate Holds(v: nat, bits: nat, written: nat, held: nat) {
    bits == v % WORD && written == v / Two(held)
  }

  lemma PushByte(v: nat, bits: nat, written: nat, held: nat, d: byte)
    requires Holds(v, bits, written, held)
    ensures Holds(v * 256 + d, (bits * 256) % WORD + d, written, held + 8)
  {
    SmallTwos();
    Followed(v, bits, 256, d);
    Pushed(v, held, 8, d);
  }

  lemma PopFive(v: nat, bits: nat, written: nat, held: nat)
    requires Holds(v, bits, written, held + 5) && held <= 27
    ensures Holds(v, bits, written * 32 + bits / Two(held) % 32, held)
  {
    SmallTwos();
    Popped(v, held, 5);
    Wrapped(v, held, 5);
  }

  lemma PushFive(v: nat, bits: nat, written: nat, held: nat, d: five)
    requires Holds(v, bits, written, held)
    ensures Holds(v * 32 + d, (bits * 32) % WORD + d, written, held + 5)
  {
    SmallTwos();
    Followed(v, bits, 32, d);
    Pushed(v, held, 5, d);
  }

  lemma PopByte(v: nat, bits: nat, written: nat, held: nat)
    requires Holds(v, bits, written, held + 8) && held <= 24
    ensures Holds(v, bits, written * 256 + bits / Two(held) % 256, held)
  {
    SmallTwos();
    Popped(v, held, 8);
    Wrapped(v, held, 8);
  }

  lemma LastBy(v: nat, p: nat, c: nat)
    requires 0 < p && 0 < c && p * c == 32
    ensures v * c == v / p * 32 + v * c % 32
  {
    var q, r := v / p, v % p;
    assert v == p * q + r;
    assert v * c == (p * c) * q + c * r;
    Multiplied(c, r + 1, p);
    Quotient(v * c, 32, q);
  }

  lemma Scaled(q: nat, bits: nat, c: nat)
    ensures (WORD * q + bits) * c == WORD * (q * c) + bits * c
  {
  }

  /** A word is a whole number of fives of bits, so cutting to one first changes
      nothing below. */
  lemma FivesOfAWord(x: nat, k: nat, r: nat)
    requires x == WORD * k + r
    ensures x % 32 == r % 32
  {
    Remainder(x, 32, 134_217_728 * k, r);
  }

  lemma LowBits(v: nat, c: nat)
    ensures v % WORD * c % WORD % 32 == v * c % 32
  {
    var q, bits := v / WORD, v % WORD;
    Scaled(q, bits, c);
    var low := bits * c;
    FivesOfAWord(v * c, q * c, low);
    FivesOfAWord(low, low / WORD, low % WORD);
  }

  /** The bits left over, at the top of one more symbol. */
  lemma LastFive(v: nat, bits: nat, written: nat, held: nat)
    requires 0 < held < 5 && Holds(v, bits, written, held)
    ensures written * 32 + bits * Two(5 - held) % WORD % 32 == v * Two(5 - held)
  {
    TwoSum(held, 5 - held);
    SmallTwos();
    LastBy(v, Two(held), Two(5 - held));
    LowBits(v, Two(5 - held));
  }

  /** The next byte off the top of what is held. */
  method TakeByte(bits: nat, held: nat, ghost v: nat, ghost written: nat) returns (n: byte)
    requires Holds(v, bits, written, held + 8) && held <= 24
    ensures Holds(v, bits, written * 256 + n, held)
  {
    PopByte(v, bits, written, held);
    n := bits / Two(held) % 256;
  }

  method TakeFive(bits: nat, held: nat, ghost v: nat, ghost written: nat) returns (n: five)
    requires Holds(v, bits, written, held + 5) && held <= 27
    ensures Holds(v, bits, written * 32 + n, held)
  {
    PopFive(v, bits, written, held);
    n := bits / Two(held) % 32;
  }

  method TakeLast(bits: nat, held: nat, ghost v: nat, ghost written: nat) returns (n: five)
    requires 0 < held < 5 && Holds(v, bits, written, held)
    ensures written * 32 + n == v * Two(5 - held)
  {
    LastFive(v, bits, written, held);
    n := bits * Two(5 - held) % WORD % 32;
  }

  // The encoder.

  /** Where an encoder is after some bytes: every whole five of their bits is
      written out, and the rest is held. */
  ghost predicate Emitted(raw: seq<byte>, bits: nat, held: nat, symbols: seq<five>) {
    && 5 * |symbols| + held == 8 * |raw|
    && Holds(Spelled(256, raw), bits, Spelled(32, symbols), held)
  }

  /** One byte through the word, and symbols out while five bits are held. */
  method Emit(ghost raw: seq<byte>, d: byte, bits: nat, held: nat, text: string, ghost symbols: seq<five>)
    returns (bits': nat, held': nat, text': string, ghost symbols': seq<five>)
    requires held < 5 && Emitted(raw, bits, held, symbols) && text == Symbols(symbols)
    ensures held' < 5 && Emitted(raw + [d], bits', held', symbols') && text' == Symbols(symbols')
  {
    SpelledSnoc(256, raw, d);
    PushByte(Spelled(256, raw), bits, Spelled(32, symbols), held, d);
    bits', held', text', symbols' := (bits * 256) % WORD + d, held + 8, text, symbols;
    while held' >= 5
      invariant held' <= 12 && Emitted(raw + [d], bits', held', symbols') && text' == Symbols(symbols')
    {
      held' := held' - 5;
      var n := TakeFive(bits', held', Spelled(256, raw + [d]), Spelled(32, symbols'));
      text', symbols' := Push(text', symbols', n);
    }
  }

  /** What an encoder has to write: characters of the alphabet, whose places in
      it are what the bytes encode to. */
  ghost predicate IsTextOf(raw: seq<byte>, text: string) {
    && (forall i :: 0 <= i < |text| ==> Position(text[i]).Some?)
    && (forall ns: seq<five> :: Looks(Position, text, ns) ==> IsEncoding(raw, ns))
  }

  lemma SymbolsAreText(raw: seq<byte>, symbols: seq<five>)
    requires IsEncoding(raw, symbols)
    ensures IsTextOf(raw, Symbols(symbols))
  {
    forall ns: seq<five> | Looks(Position, Symbols(symbols), ns)
      ensures ns == symbols
    {
      LooksOnce(Position, Symbols(symbols), ns, symbols);
    }
  }

  method Encode(raw: seq<byte>) returns (text: string)
    ensures IsTextOf(raw, text)
  {
    ghost var symbols: seq<five> := [];
    text := "";
    var bits: nat, held: nat := 0, 0;
    for at := 0 to |raw|
      invariant text == Symbols(symbols) && held < 5 && Emitted(raw[..at], bits, held, symbols)
    {
      assert raw[..at + 1] == raw[..at] + [raw[at]];
      bits, held, text, symbols := Emit(raw[..at], raw[at], bits, held, text, symbols);
    }
    assert raw[..|raw|] == raw;
    if held > 0 {
      var n := TakeLast(bits, held, Spelled(256, raw), Spelled(32, symbols));
      text, symbols := Push(text, symbols, n);
    }
    SymbolsAreText(raw, symbols);
  }

  method Push(before: string, ghost symbols: seq<five>, n: five) returns (text: string, ghost after: seq<five>)
    requires before == Symbols(symbols)
    ensures text == before + [Symbol(n)] == Symbols(after) && |after| == |symbols| + 1
    ensures Spelled(32, after) == Spelled(32, symbols) * 32 + n
  {
    SpelledSnoc(32, symbols, n);
    text, after := before + [Symbol(n)], symbols + [n];
  }

  // The decoders.

  /** Where a decoder is after some digits: every whole eight of their bits is
      written out, and the rest is held. */
  ghost predicate Absorbed(ns: seq<five>, bits: nat, held: nat, out: seq<byte>) {
    && held < 8 && 8 * |out| + held == 5 * |ns|
    && Holds(Spelled(32, ns), bits, Spelled(256, out), held)
  }

  /** One digit through the word, and a byte out when eight bits are held. */
  method Absorb(ghost ns: seq<five>, bits: nat, held: nat, out: seq<byte>, d: five)
    returns (bits': nat, held': nat, out': seq<byte>)
    requires Absorbed(ns, bits, held, out)
    ensures Absorbed(ns + [d], bits', held', out')
  {
    SpelledSnoc(32, ns, d);
    PushFive(Spelled(32, ns), bits, Spelled(256, out), held, d);
    bits', held', out' := (bits * 32) % WORD + d, held + 5, out;
    if held' >= 8 {
      held' := held' - 8;
      var n := TakeByte(bits', held', Spelled(32, ns + [d]), Spelled(256, out));
      SpelledSnoc(256, out, n);
      out' := out + [n];
    }
  }

  lemma AbsorbedIsDecoded(ns: seq<five>, bits: nat, held: nat, out: seq<byte>)
    requires Absorbed(ns, bits, held, out)
    ensures IsDecoding(ns, out)
  {
    Quotient(5 * |ns|, 8, |out|);
  }

  lemma LooksOnce(position: char -> Option<five>, body: string, ns: seq<five>, other: seq<five>)
    requires Looks(position, body, ns) && Looks(position, body, other)
    ensures ns == other
  {
    forall i | 0 <= i < |ns|
      ensures ns[i] == other[i]
    {
      assert position(body[i]) == Some(ns[i]);
    }
  }

  lemma DecodedIsAnswered(position: char -> Option<five>, body: string, ns: seq<five>, out: seq<byte>)
    requires Looks(position, body, ns) && IsDecoding(ns, out)
    ensures Answers(position, body, Some(out))
  {
    forall other: seq<five> | Looks(position, body, other)
      ensures other == ns
    {
      LooksOnce(position, body, ns, other);
    }
  }

  /** The loop both decoders are: `position` is how each looks a character
      up, and one that is not there ends it. */
  method Decode(body: string, position: char -> Option<five>) returns (r: Option<seq<byte>>)
    ensures Answers(position, body, r)
  {
    var bits: nat, held: nat, out: seq<byte> := 0, 0, [];
    ghost var ns: seq<five> := [];
    for at := 0 to |body|
      invariant |ns| == at && forall i :: 0 <= i < at ==> position(body[i]) == Some(ns[i])
      invariant Absorbed(ns, bits, held, out)
    {
      var index := position(body[at]);
      if index.None? {
        return None;
      }
      bits, held, out := Absorb(ns, bits, held, out, index.value);
      ns := ns + [index.value];
    }
    AbsorbedIsDecoded(ns, bits, held, out);
    DecodedIsAnswered(position, body, ns, out);
    return Some(out);
  }

  /** Every character of the text is where these say in the alphabet. */
  ghost predicate Looks(position: char -> Option<five>, body: string, ns: seq<five>) {
    |ns| == |body| && forall i :: 0 <= i < |body| ==> position(body[i]) == Some(ns[i])
  }

  /** What a decoder has to answer: nothing exactly when a character is not of
      the alphabet, and otherwise the bytes. */
  ghost predicate Answers(position: char -> Option<five>, body: string, r: Option<seq<byte>>) {
    && (r.Some? <==> forall i :: 0 <= i < |body| ==> position(body[i]).Some?)
    && (r.Some? ==> forall ns: seq<five> :: Looks(position, body, ns) ==> IsDecoding(ns, r.value))
  }

  /** There is one right answer, and it does not depend on anything but where
      each character is looked up to. */
  lemma AnswersAgree(p: char -> Option<five>, q: char -> Option<five>, body: string,
                     a: Option<seq<byte>>, b: Option<seq<byte>>)
    requires forall i :: 0 <= i < |body| ==> p(body[i]) == q(body[i])
    requires Answers(p, body, a) && Answers(q, body, b)
    ensures a == b
  {
    if a.Some? {
      var ns: seq<five> := seq(|body|, i requires 0 <= i < |body| && p(body[i]).Some? => p(body[i]).value);
      assert Looks(p, body, ns) && Looks(q, body, ns);
      DecodingIsUnique(ns, a.value, b.value);
    }
  }

  lemma EncodingIsAnswered(position: char -> Option<five>, raw: seq<byte>, symbols: seq<five>, body: string)
    requires IsEncoding(raw, symbols) && Looks(position, body, symbols)
    ensures Answers(position, body, Some(raw))
  {
    EncodingDecodes(raw, symbols);
    DecodedIsAnswered(position, body, symbols, raw);
  }
}
